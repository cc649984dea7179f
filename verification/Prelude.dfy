/** Small definitions shared by the other modules. */
module Prelude {

  datatype Option<+T> = None | Some(value: T)

  /** A C `char`.  Whether it is signed depends on the platform, so it is any integer;
      only the order of two characters and a few fixed codes are ever used. */
  type CChar = int

  const NUL: CChar := 0
  const SPACE: CChar := 32
  const DQUOTE: CChar := 34
  const QUOTE: CChar := 39
  const DOT: CChar := 46
  const SLASH: CChar := 47
}
