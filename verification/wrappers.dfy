/** The optional-value type shared by every module of the model. */
module Wrappers {

  /** A value that may be absent: JavaScript's `null`/`undefined` made explicit. */
  datatype Option<+T> = None | Some(value: T) {

    /** JavaScript's `x ?? d`: the present value, or `d` when there is none. */
    function GetOr(d: T): T {
      if Some? then value else d
    }
  }
}
