/**
 The reader's byte-by-byte test of UTF-8 accepts exactly the encodings of texts.
 */
module GgufUtf8 {
  import opened Machine
  import opened Utf8
  import opened Gguf

  ghost predicate IsUtf8(b: Bytes) {
    exists text: seq<Scalar> :: b == EncodeText(text)
  }

  /** The bytes of a scalar value pass the test, in front of any bytes. */
  lemma ScalarRead(c: Scalar, rest: Bytes)
    ensures Utf8Len(EncodeScalar(c) + rest) == |EncodeScalar(c)|
  {
    assert IsScalar(c);
    var b := EncodeScalar(c) + rest;
    assert forall i :: 0 <= i < |EncodeScalar(c)| ==> b[i] == EncodeScalar(c)[i];
    var c1 := c / 64;
    var c2 := c1 / 64;
    var c3 := c2 / 64;
    assert c == 64 * c1 + c % 64 && c1 == 64 * c2 + c1 % 64 && c2 == 64 * c3 + c2 % 64;
  }

  lemma Joined(hi: nat, last: nat)
    requires 0x80 <= last <= 0xBF
    ensures (64 * hi + (last - 0x80)) / 64 == hi && Last6(64 * hi + (last - 0x80)) == last
  {
  }

  /** Bytes that pass the test are those of a scalar value. */
  lemma ScalarWritten(b: Bytes) returns (c: Scalar)
    requires Utf8Len(b) > 0
    ensures b[..Utf8Len(b)] == EncodeScalar(c)
  {
    var d: seq<int> := b;
    var n := Utf8Len(b);
    if n == 1 {
      c := d[0];
    } else {
      var lead := if n == 2 then 0xC0 else if n == 3 then 0xE0 else 0xF0;
      var c1 := 64 * (d[0] - lead) + (d[1] - 0x80);
      var c2 := if n >= 3 then 64 * c1 + (d[2] - 0x80) else c1;
      var c3 := if n == 4 then 64 * c2 + (d[3] - 0x80) else c2;
      Joined(d[0] - lead, d[1]);
      if n >= 3 { Joined(c1, d[2]); }
      if n == 4 { Joined(c2, d[3]); }
      hide Last6;
      c := c3;
    }
  }

  lemma {:induction false} TextRead(text: seq<Scalar>)
    ensures ValidUtf8(EncodeText(text))
  {
    hide Utf8Len, EncodeScalar;
    if text != [] {
      var first, rest := EncodeScalar(text[0]), EncodeText(text[1..]);
      ScalarRead(text[0], rest);
      assert (first + rest)[|first|..] == rest;
      TextRead(text[1..]);
    }
  }

  lemma {:induction false} TextWritten(b: Bytes) returns (text: seq<Scalar>)
    requires ValidUtf8(b)
    ensures b == EncodeText(text)
    decreases |b|
  {
    hide Utf8Len, EncodeScalar;
    if b == [] {
      text := [];
    } else {
      var n := Utf8Len(b);
      var c := ScalarWritten(b);
      var more := TextWritten(b[n..]);
      text := [c] + more;
      assert text[1..] == more && b == b[..n] + b[n..];
    }
  }

  /** The reader's test accepts exactly the encodings of texts. */
  lemma Utf8Exactly(b: Bytes)
    ensures ValidUtf8(b) <==> IsUtf8(b)
  {
    if ValidUtf8(b) { var text := TextWritten(b); }
    if IsUtf8(b) {
      var text: seq<Scalar> :| b == EncodeText(text);
      TextRead(text);
    }
  }
}
