/** `Option` stands for the places where the source uses `undefined` or `null`. */
module Wrappers {

  datatype Option<+T> = None | Some(value: T)
}
