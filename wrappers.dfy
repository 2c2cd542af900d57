/** Optional values, standing for Java's `Optional<T>` and for a boxed
    reference that may be `null`. */
module Wrappers {

  datatype Option<+T> = None | Some(value: T)

}
