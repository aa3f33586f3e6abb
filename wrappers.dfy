/** The optional value used where `App.tsx` has `undefined`: an absent error text, the result of `pop()` on an empty array. */
module Wrappers {

  datatype Option<+T> = None | Some(value: T)
}
