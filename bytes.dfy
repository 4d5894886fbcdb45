/** Bytes as the program handles them (Go's `[]byte`). */
module ByteTypes {

  newtype byte = x: int | 0 <= x < 256

  type Bytes = seq<byte>

  const Newline: byte := 10
  const Dash: byte := 45

  /** The bytes of an ASCII string. */
  function Ascii(s: string): Bytes
    requires forall i | 0 <= i < |s| :: s[i] as int < 128
  {
    seq(|s|, i requires 0 <= i < |s| => s[i] as int as byte)
  }
}
