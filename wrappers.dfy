/** The optional value used where the TypeScript source has `undefined` or `null`. */
module Wrappers {

  datatype Option<+T> = None | Some(value: T)

}
