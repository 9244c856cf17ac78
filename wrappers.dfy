/** The optional value used throughout the model: `None` stands for JavaScript's
    `undefined` / `null` where the source uses them as "no value". */
module Wrappers {

  datatype Option<+T> = None | Some(value: T)
}
