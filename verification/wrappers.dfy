/** An optional value: `None` stands for JavaScript's `null` and for a
    parse that yields `NaN`. */
module Wrappers {

  datatype Option<+T> = None | Some(value: T)

}
