/** Optional values: the model's stand-in for a TypeScript property that may be
    `undefined` or a column that may be `null`. */
module Wrappers {
  datatype Option<+T> = None | Some(value: T)
}
