/** Optional values. `None` stands for JavaScript's `NaN`, `null` and
    `undefined` wherever the presentation code tests for them. */
module Wrappers {

  datatype Option<+T> = None | Some(value: T) {

    /** The wrapped value, or `default` when there is none. */
    function GetOr(default: T): T {
      match this
      case Some(v) => v
      case None => default
    }
  }
}
