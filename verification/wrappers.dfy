/** Option type used for nullable pointers and not-found results. */
module Wrappers {

  /** `None` plays the role of a null pointer or an empty smart reference. */
  datatype Option<+T> = None | Some(value: T)
}
