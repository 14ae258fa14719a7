/** The optional value every adapter of the popup returns: `None` stands for
    JavaScript's `null`/`undefined` ("this source gave nothing"). */
module Wrappers {
  datatype Option<+T> = None | Some(value: T)
}
