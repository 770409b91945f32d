/** Types shared by every component. */
module Common {

  datatype Option<+T> = None | Some(value: T)

  type Byte = x: int | 0 <= x < 0x100

  /** An unsigned 32-bit machine word. */
  type Word = x: int | 0 <= x < 0x1_0000_0000

  /** The characters of a C string, without the NUL that ends it. */
  type CStr = s: seq<Byte> | 0 !in s witness []

  /** Unsigned 32-bit addition, which wraps around. */
  function Add32(a: Word, b: Word): Word {
    (a + b) % 0x1_0000_0000
  }
}
