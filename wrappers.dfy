/** The Option datatype used throughout the model: `None` stands for a JavaScript
    value that is `undefined` (or, where a caller only tests truthiness, any falsy value). */
module Wrappers {

  datatype Option<+T> = None | Some(value: T) {

    /** The value, or `default` when there is none (the `x || default` idiom). */
    function GetOr(default: T): T {
      match this
      case Some(v) => v
      case None => default
    }
  }
}
