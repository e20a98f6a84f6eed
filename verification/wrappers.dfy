/** Optional value, used where the source produces a
    non-finite floating-point result (division by a zero denominator). */
module Wrappers {

  datatype Option<+T> = None | Some(value: T)

}
