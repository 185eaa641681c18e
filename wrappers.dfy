/** The optional value used for missing table cells, an unavailable source text
    and a variable that may not be bound. */
module Wrappers {

  datatype Option<+T> = None | Some(value: T)
}
