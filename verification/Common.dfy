// Small shared vocabulary.

module Common {

  datatype Option<+T> = None | Some(value: T)

  newtype Byte = x: int | 0 <= x < 256

  /** The kernel's `__u32`. */
  type U32 = x: int | 0 <= x < 0x1_0000_0000

  const NEWLINE: Byte := 10

  function Min(a: int, b: int): int {
    if a < b then a else b
  }

  /** Concatenation of a sequence of sequences. */
  function Concat<T>(parts: seq<seq<T>>): seq<T> {
    if parts == [] then [] else parts[0] + Concat(parts[1..])
  }
}
