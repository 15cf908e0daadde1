/** What the other modules share: the widths of machine words and a few small definitions. */
module Common {
  datatype Option<T> = None | Some(value: T)

  const WORD32 := 0x1_0000_0000
  const WORD64 := 0x1_0000_0000_0000_0000

  type Word = n: nat | n < WORD32
  type Long = n: nat | n < WORD64

  /** The size of the buffer that memory and detector data are read into. */
  const READ_BUFFER_BYTES := 0x10_0000 - 64

  function Min(a: int, b: int): int {
    if a <= b then a else b
  }
}
