/** Optional values: `None` stands for JavaScript's `undefined`/`null` (or a rejected promise). */
module Wrappers {
  datatype Option<+T> = None | Some(value: T)
}
