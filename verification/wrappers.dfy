/** The optional value used wherever the source returns "nothing" (an empty
    dict, an absent minimum, a field that does not parse). */
module Wrappers {

  datatype Option<+T> = None | Some(value: T)

}
