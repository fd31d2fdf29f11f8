/** Types shared by every module: optional values, results and bytes. */
module Prelude {

  datatype Option<+T> = None | Some(value: T)

  datatype Result<+T, +E> = Ok(value: T) | Err(error: E)

  /** A Go `float64`; finite values are exact reals. */
  datatype Float = NaN | PosInf | NegInf | Finite(value: real)

  /** A Go `byte`. */
  type byte = x: int | 0 <= x < 256

  /** A Go `[]byte`, and also a Go `string`, which is an immutable byte sequence. */
  type Bytes = seq<byte>

  /** The bytes of an ASCII literal. */
  function Ascii(s: string): (b: Bytes)
    requires forall i :: 0 <= i < |s| ==> s[i] as int < 128
    ensures |b| == |s| && forall i :: 0 <= i < |s| ==> b[i] == s[i] as int
  {
    seq(|s|, i requires 0 <= i < |s| => s[i] as int)
  }
}
