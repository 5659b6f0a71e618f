/** Result types shared by every module. */
module Wrappers {

  datatype Option<+T> = None | Some(value: T)

  /** What a parser produces: a value together with the input left over, or a failure. */
  datatype Parsed<+T> = Reject | Accept(value: T, rest: string)
}
