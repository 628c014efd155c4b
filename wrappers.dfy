/** The optional value used wherever the JavaScript source has `undefined`/`null`
    next to a real value (an unset status, a missing annotation url, a failed reply). */
module Wrappers {

  datatype Option<+T> = None | Some(value: T)
}
