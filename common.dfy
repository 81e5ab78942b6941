/** Small shared vocabulary: optional values, bytes, and ASCII text as bytes. */
module Common {

  /** An optional value; `None` stands for Go's error return or Rust's `Err`/`None`. */
  datatype Option<+T> = None | Some(value: T)

  /** One octet of a file or an HTTP body. */
  type byte = b: int | 0 <= b < 256

  /** The bytes of a string whose characters are all ASCII (the demo-file texts). */
  function AsciiBytes(s: string): (r: seq<byte>)
    ensures |r| == |s|
    ensures forall i :: 0 <= i < |s| && s[i] as int < 256 ==> r[i] == s[i] as int
  {
    seq(|s|, i requires 0 <= i < |s| => (s[i] as int % 256) as byte)
  }
}
