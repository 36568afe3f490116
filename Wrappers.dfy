/** The optional value a resolver returns: `None` stands for JavaScript's
    `undefined` (what `Array.prototype.find` yields when nothing matches, and
    what an omitted nullable argument reads as). */
module Wrappers {
  datatype Option<+T> = None | Some(value: T)
}
