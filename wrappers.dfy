/** Optional values: TypeScript's `x?: T` fields and `T | null` state slots. */
module Wrappers {

  datatype Option<+T> = None | Some(value: T)
}
