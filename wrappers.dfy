/** Optional values, used for the HOME variable and for answers that may never come. */
module Wrappers {
  datatype Option<+T> = None | Some(value: T)
}
