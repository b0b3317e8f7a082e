/** Types shared by the components. */
module Basics {

  datatype Option<T> = None | Some(value: T)

  type Byte = b: nat | b < 256
}
