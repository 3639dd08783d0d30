/** The optional value used for JavaScript's `undefined` results (`pop()` of an empty array,
    a capture group that did not take part, an absent object property). */
module Wrappers {
  datatype Option<+T> = None | Some(value: T)
}
