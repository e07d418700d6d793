/** Bytes as numbers, for the text side and the other cores; the packed side has bits. */
module Bytes {
  type byte = x: int | 0 <= x < 256

  /** What reading one byte brings, a byte being a number or eight bits. */
  datatype Getc<T> = Eof | Char(c: T)
}
