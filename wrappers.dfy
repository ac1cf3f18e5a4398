/** An optional value. In the JavaScript model `None` stands for `NaN` or `undefined`. */
module Wrappers {
  datatype Option<+T> = None | Some(value: T)
}
