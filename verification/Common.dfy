/**
  What several parts of the engine share.
 */
module Common {

  const LAYER_COUNT: nat := 64
  const UINT64_MAX: nat := 0xFFFF_FFFF_FFFF_FFFF

  type Byte = b: int | 0 <= b < 0x100

  datatype Option<T> = None | Some(value: T)

  /** The bytes of a text of ASCII characters. */
  function Ascii(s: string): seq<Byte> {
    seq(|s|, i requires 0 <= i < |s| => (s[i] as int) % 0x100)
  }
}
