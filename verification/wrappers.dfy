/**
 * Optional values. For ids, `None` is JavaScript's `null`; `undefined` never
 * reaches a comparison, since the constructor turns a missing id into `null`.
 */
module Wrappers {

  datatype Option<+T> = None | Some(value: T)

}
