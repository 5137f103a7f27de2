/** The optional value the widget writes as `T | null` (a selected id) or as
    `undefined` (the result of `Array.prototype.find`). */
module Wrappers {

  datatype Option<+T> = None | Some(value: T)
}
