/** A possibly missing value: a null pointer, or a lookup that found nothing. */
module Wrappers {
  datatype Option<+T> = None | Some(value: T)
}
