/** Bytes and text as Python sees them: text is a sequence of code points, surrogates included. */
module Text {

  type Byte = b: int | 0 <= b < 0x100
  type Bytes = seq<Byte>
  type CodePoint = c: int | 0 <= c < 0x11_0000
  type Text = seq<CodePoint>

  datatype Option<+T> = None | Some(value: T)

  const NEWLINE: CodePoint := 10

  predicate IsAscii(t: Text) {
    forall i | 0 <= i < |t| :: t[i] < 0x80
  }

  /** The code points of an ASCII text, one byte each. */
  function AsciiBytes(t: Text): (b: Bytes)
    requires IsAscii(t)
    ensures |b| == |t| && forall i | 0 <= i < |t| :: b[i] == t[i]
  {
    seq(|t|, i requires 0 <= i < |t| => t[i] as Byte)
  }
}
