/** The optional value used for JavaScript's `null`: an absent file list,
    a cleared error message, a failed read result. */
module Wrappers {

  datatype Option<+T> = None | Some(value: T)
}
