/** Values every component shares: optional results, and text as the byte strings Go works on. */
module GoText {

  datatype Option<+T> = None | Some(value: T)

  /** Errors carry no more than that something failed. */
  datatype Result<+T> = Ok(value: T) | Err

  type Byte = b: int | 0 <= b < 256

  type Text = seq<Byte>

  /** A text all of whose characters lie in the first 256 code points, as bytes. */
  function Ascii(s: string): (t: Text)
    ensures |t| == |s|
    ensures forall i :: 0 <= i < |s| && s[i] < 256 as char ==> t[i] == s[i] as int
  {
    seq(|s|, i requires 0 <= i < |s| => s[i] as int % 256)
  }

  const LINE_FEED: Byte := 10
  const CARRIAGE_RETURN: Byte := 13
  const EQUALS: Byte := 61
  const HYPHEN: Byte := 45
  const ZERO: Byte := 48
}
