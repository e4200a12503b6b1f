/** The Option type used for JavaScript's `undefined` results and for an invalid `Date`. */
module Wrappers {

  datatype Option<+T> = None | Some(value: T)
}
