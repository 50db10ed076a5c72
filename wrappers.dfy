/** The optional value of a JSON field or of a nullable column: `None` stands
    for `null`, `undefined` or a key that is absent. */
module Wrappers {

  datatype Option<+T> = None | Some(value: T)
}
