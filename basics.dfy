/** Small value types shared by the whole model. */
module Basics {

  /** Go's `byte`. */
  newtype byte = x: int | 0 <= x < 0x100

  /** Go's `uint32`, the representation of `fs.FileMode`. */
  newtype uint32 = x: int | 0 <= x < 0x1_0000_0000

  /** A Go `string` or `[]byte` value: a sequence of bytes. */
  type Bytes = seq<byte>

  datatype Option<+T> = None | Some(value: T)

  /** The bytes of an ASCII literal, for writing concrete scenarios. */
  function Ascii(s: string): (r: Bytes)
    requires forall i :: 0 <= i < |s| ==> s[i] as int < 0x100
    ensures |r| == |s|
    ensures forall i :: 0 <= i < |s| ==> r[i] as int == s[i] as int
  {
    seq(|s|, i requires 0 <= i < |s| => s[i] as int as byte)
  }
}
