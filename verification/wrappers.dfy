/** Optional values: JavaScript's `undefined`/`null` fields and optional chaining. */
module Wrappers {

  datatype Option<+T> = None | Some(value: T)
}
