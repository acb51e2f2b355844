/** What several modules share: optional values, 32-bit words and bytes as numbers. */
module Prelude {

  datatype Option<+T> = None | Some(value: T)

  type Word = w: int | 0 <= w < 0x1_0000_0000

  type Byte = b: int | 0 <= b < 0x100

  /** A 16-bit immediate as the signed number the machine adds. */
  function Sext(w: int): int {
    var lo := w % 0x1_0000;
    if lo >= 0x8000 then lo - 0x1_0000 else lo
  }
}
