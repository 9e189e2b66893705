/** The optional-value datatype used for lookups that may find nothing
    (the `undefined` of an unsuccessful `Array.prototype.find`). */
module Wrappers {

  datatype Option<+T> = None | Some(value: T)
}
