/** What all parts of the model share: options and the ranges of the machine words. */
module Common {

  datatype Option<+T> = None | Some(value: T)

  const U16 := 0x1_0000
  const U24 := 0x100_0000
  const U32 := 0x1_0000_0000
  const U48 := 0x1_0000_0000_0000
  const U64 := 0x1_0000_0000_0000_0000
}
