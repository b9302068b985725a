/** Option, used wherever the source has a value that may be missing
    (`searchParams.get` returning null, an unset ref slot, an unset selection). */
module Wrappers {
  datatype Option<+T> = None | Some(value: T)
}
