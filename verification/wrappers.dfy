/** The optional-value type used wherever the modelled code uses Rust's `Option`. */
module Wrappers {

  datatype Option<+T> = None | Some(value: T)
}
