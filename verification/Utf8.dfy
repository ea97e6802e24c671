/** The byte strings that are texts are the encodings of sequences of Unicode scalar values. */
module Utf8 {
  import opened Bytes
  import opened DataModel

  /** A code point that is not a surrogate. */
  type Scalar = c: int | 0 <= c < 0xD800 || 0xE000 <= c < 0x11_0000

  /** UTF-8 of one scalar value (table 3-6 of the Unicode standard). */
  function ScalarBytes(c: Scalar): Data {
    if c < 0x80 then [c]
    else if c < 0x800 then [0xC0 + c / 0x40, 0x80 + c % 0x40]
    else if c < 0x1_0000 then [0xE0 + c / 0x1000, 0x80 + c / 0x40 % 0x40, 0x80 + c % 0x40]
    else [0xF0 + c / 0x4_0000, 0x80 + c / 0x1000 % 0x40, 0x80 + c / 0x40 % 0x40, 0x80 + c % 0x40]
  }

  function TextBytes(text: seq<Scalar>): Data {
    if text == [] then [] else ScalarBytes(text[0]) + TextBytes(text[1..])
  }

  lemma ScalarIsValid(c: Scalar, rest: Data)
    requires ValidUtf8(rest)
    ensures ValidUtf8(ScalarBytes(c) + rest)
  {
    var d := ScalarBytes(c) + rest;
    assert d[|ScalarBytes(c)|..] == rest;
  }

  lemma {:induction false} TextIsValid(text: seq<Scalar>)
    ensures ValidUtf8(TextBytes(text))
  {
    if text != [] {
      TextIsValid(text[1..]);
      ScalarIsValid(text[0], TextBytes(text[1..]));
    }
  }

  lemma TwoByteScalar(a: int, b: int) returns (c: Scalar)
    requires 0xC2 <= a < 0xE0 && Continuation(b)
    ensures ScalarBytes(c) == [a, b]
  {
    c := (a - 0xC0) * 0x40 + (b - 0x80);
  }

  lemma ThreeByteScalar(a: int, b: int, c: int) returns (s: Scalar)
    requires 0xE0 <= a < 0xF0 && Continuation(b) && Continuation(c)
    requires (a == 0xE0 ==> b >= 0xA0) && (a == 0xED ==> b < 0xA0)
    ensures ScalarBytes(s) == [a, b, c]
  {
    var high := (a - 0xE0) * 0x40 + (b - 0x80);
    s := high * 0x40 + (c - 0x80);
    assert s / 0x40 == high;
    assert s / 0x1000 == high / 0x40;
  }

  lemma FourByteScalar(a: int, b: int, c: int, d: int) returns (s: Scalar)
    requires 0xF0 <= a < 0xF5 && Continuation(b) && Continuation(c) && Continuation(d)
    requires (a == 0xF0 ==> b >= 0x90) && (a == 0xF4 ==> b < 0x90)
    ensures ScalarBytes(s) == [a, b, c, d]
  {
    var top := (a - 0xF0) * 0x40 + (b - 0x80);
    var high := top * 0x40 + (c - 0x80);
    s := high * 0x40 + (d - 0x80);
    assert s / 0x40 == high && s / 0x1000 == high / 0x40 == top && s / 0x4_0000 == top / 0x40;
  }

  lemma FirstScalar(d: Data) returns (c: Scalar, rest: Data)
    requires d != [] && ValidUtf8(d)
    ensures d == ScalarBytes(c) + rest && ValidUtf8(rest) && |rest| < |d|
  {
    if d[0] < 0x80 {
      c, rest := d[0], d[1..];
    } else if d[0] < 0xE0 {
      c := TwoByteScalar(d[0], d[1]);
      rest := d[2..];
    } else if d[0] < 0xF0 {
      c := ThreeByteScalar(d[0], d[1], d[2]);
      rest := d[3..];
    } else {
      c := FourByteScalar(d[0], d[1], d[2], d[3]);
      rest := d[4..];
    }
  }

  lemma {:induction false} ValidIsText(d: Data) returns (text: seq<Scalar>)
    requires ValidUtf8(d)
    ensures TextBytes(text) == d
    decreases |d|
  {
    if d == [] {
      text := [];
    } else {
      var c, rest := FirstScalar(d);
      var tail := ValidIsText(rest);
      text := [c] + tail;
    }
  }

  /** Bytes are read as a text exactly when some sequence of scalar values is encoded so. */
  lemma Utf8Exactly(d: Data)
    ensures ValidUtf8(d) <==> exists text :: TextBytes(text) == d
  {
    if ValidUtf8(d) { var text := ValidIsText(d); }
    forall text | TextBytes(text) == d ensures ValidUtf8(d) { TextIsValid(text); }
  }
}
