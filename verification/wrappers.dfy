/** The optional value used where the C++ code passes a pointer that may be null, or where a
    C operation has no defined result (a read past the end of an object). */
module Wrappers {

  datatype Option<+T> = None | Some(value: T)
}
