/** The optional value used across the model: `None` stands for JavaScript's
    `undefined` or `NaN`, depending on where it is used. */
module Wrappers {
  datatype Option<+T> = None | Some(value: T)
}
