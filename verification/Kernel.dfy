/** What the modules share: optional results, the kernel's return values, and the characters it treats specially. */
module Kernel {
  import opened Bytes

  datatype Option<T> = None | Some(value: T)

  const SUCCESS: int := 1
  const FAILURE: int := -1

  const BACKSPACE: byte := 8
  const NEWLINE: byte := '\n' as int
  const CARRIAGE_RETURN: byte := '\r' as int
  const SPACE: byte := ' ' as int
  const PERCENT: byte := '%' as int
  const FULL_STOP: byte := '.' as int
  const SLASH: byte := '/' as int
  const ZERO: byte := '0' as int
  const LETTER_D: byte := 'd' as int
  const LETTER_M: byte := 'm' as int
  const LETTER_S: byte := 's' as int
  const LETTER_X: byte := 'x' as int
  const BRACKET: byte := '[' as int
  const UNDERSCORE: byte := '_' as int
}
