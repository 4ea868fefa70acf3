/** The optional value used for the component's `string | null` cursor and
    for the optional `cursor?` argument of `load`. */
module Wrappers {

  datatype Option<+T> = None | Some(value: T)
}
