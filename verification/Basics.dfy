/** What several modules share: the ranges of the machine's unsigned words and an optional value. */
module Basics {

  const U32_RANGE := 0x1_0000_0000
  const U64_RANGE := 0x1_0000_0000_0000_0000

  datatype Option<T> = None | Some(value: T)
}
