/** The optional value the rest of the model uses for JavaScript's `undefined`/no-match results. */
module Wrappers {

  datatype Option<+T> = None | Some(value: T)

}
