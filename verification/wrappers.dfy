/** The optional value used for `selectedBook` and `error`, which the component
    initialises to `null` and sets back to `null` or `undefined`. */
module Wrappers {

  datatype Option<+T> = None | Some(value: T)
}
