/** Datatypes shared by the models. */
module Prelude {
  datatype Option<+T> = None | Some(value: T)

  const U32_MAX := 0xFFFF_FFFF

  type U32 = n: nat | n <= U32_MAX
}
