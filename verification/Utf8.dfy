/**
 UTF-8, written down as the encoding of Unicode scalar values (section 3 of RFC 3629).
 */
module Utf8 {
  import opened Machine

  /** A Unicode code point that is not a surrogate. */
  predicate IsScalar(c: nat) {
    c < 0xD800 || 0xE000 <= c < 0x11_0000
  }

  type Scalar = c: nat | IsScalar(c)

  /** A continuation byte: the last six bits of a number. */
  function Last6(n: nat): Byte {
    0x80 + n % 64
  }

  function EncodeScalar(c: Scalar): (b: Bytes)
    ensures 1 <= |b| <= 4
  {
    assert IsScalar(c);
    if c < 0x80 then [c]
    else if c < 0x800 then [0xC0 + c / 64, Last6(c)]
    else if c < 0x1_0000 then [0xE0 + c / 64 / 64, Last6(c / 64), Last6(c)]
    else [0xF0 + c / 64 / 64 / 64, Last6(c / 64 / 64), Last6(c / 64), Last6(c)]
  }

  function EncodeText(text: seq<Scalar>): Bytes {
    if text == [] then [] else EncodeScalar(text[0]) + EncodeText(text[1..])
  }

  /** The bytes of a text, one `char` for each. */
  function Chars(b: Bytes): string {
    seq(|b|, i requires 0 <= i < |b| => b[i] as char)
  }
}
