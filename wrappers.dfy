/** Optional values, used where the site either has a value or has none
    (an absent form field, a file name without an extension, a name without a word). */
module Wrappers {

  datatype Option<+T> = None | Some(value: T)
}
