/** The optional-value datatype used for a question's choices and for the
    session's current question, which may be absent. */
module Wrappers {

  datatype Option<+T> = None | Some(value: T)
}
