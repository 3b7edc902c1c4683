/** Well-formed text is the encoding of Unicode scalar values, and of nothing else. */
module Utf8 {
  import opened Results
  import opened Bytes
  import opened Directory

  type Scalar = c: int | 0 <= c < 0x11_0000 && !(0xD800 <= c < 0xE000)

  function Encoded(c: Scalar): Blob {
    if c < 0x80 then [c]
    else if c < 0x800 then [0xC0 + c / 64, 0x80 + c % 64]
    else if c < 0x1_0000 then [0xE0 + c / 4096, 0x80 + c / 64 % 64, 0x80 + c % 64]
    else [0xF0 + c / 0x4_0000, 0x80 + c / 4096 % 64, 0x80 + c / 64 % 64, 0x80 + c % 64]
  }

  function EncodedAll(text: seq<Scalar>): Blob {
    if text == [] then [] else Encoded(text[0]) + EncodedAll(text[1..])
  }

  lemma StartsWithScalar(c: Scalar, rest: Blob)
    ensures Utf8Length(Encoded(c) + rest) == Some(|Encoded(c)|)
  {
  }

  lemma Digits(high: nat, low: nat)
    requires low < 64
    ensures (high * 64 + low) / 64 == high && (high * 64 + low) % 64 == low
  {
  }

  lemma TwoOctets(a: Byte, x: Byte) returns (c: Scalar)
    requires 0xC2 <= a <= 0xDF && Continues(x)
    ensures Encoded(c) == [a, x]
  {
    var high: nat := a - 0xC0;
    c := high * 64 + (x - 0x80);
    Digits(high, x - 0x80);
  }

  lemma ThreeOctets(a: Byte, x: Byte, y: Byte) returns (c: Scalar)
    requires 0xE0 <= a <= 0xEF && Continues(x) && Continues(y)
    requires (a == 0xE0 ==> x >= 0xA0) && (a == 0xED ==> x < 0xA0)
    ensures Encoded(c) == [a, x, y]
  {
    var top: nat := a - 0xE0;
    var high: nat := top * 64 + (x - 0x80);
    c := high * 64 + (y - 0x80);
    Digits(top, x - 0x80);
    Digits(high, y - 0x80);
    assert c / 4096 == c / 64 / 64;
  }

  lemma FourOctets(a: Byte, x: Byte, y: Byte, z: Byte) returns (c: Scalar)
    requires 0xF0 <= a <= 0xF4 && Continues(x) && Continues(y) && Continues(z)
    requires (a == 0xF0 ==> x >= 0x90) && (a == 0xF4 ==> x < 0x90)
    ensures Encoded(c) == [a, x, y, z]
  {
    var top: nat := a - 0xF0;
    var high: nat := top * 64 + (x - 0x80);
    var middle: nat := high * 64 + (y - 0x80);
    c := middle * 64 + (z - 0x80);
    Digits(top, x - 0x80);
    Digits(high, y - 0x80);
    Digits(middle, z - 0x80);
    assert c / 4096 == c / 64 / 64 && c / 0x4_0000 == c / 64 / 64 / 64;
  }

  lemma ScalarAtStart(b: Blob) returns (c: Scalar)
    requires b != [] && Utf8Length(b).Some?
    ensures Encoded(c) == b[..Utf8Length(b).value]
  {
    var n := Utf8Length(b).value;
    if n == 1 {
      c := b[0];
    } else if n == 2 {
      c := TwoOctets(b[0], b[1]);
    } else if n == 3 {
      c := ThreeOctets(b[0], b[1], b[2]);
    } else {
      c := FourOctets(b[0], b[1], b[2], b[3]);
    }
  }

  lemma {:induction false} EncodedIsValid(text: seq<Scalar>)
    ensures ValidUtf8(EncodedAll(text))
  {
    if text != [] {
      EncodedIsValid(text[1..]);
      StartsWithScalar(text[0], EncodedAll(text[1..]));
      var b := EncodedAll(text);
      assert b[|Encoded(text[0])|..] == EncodedAll(text[1..]);
      hide Encoded, Utf8Length;
    }
  }

  lemma {:induction false} ValidIsEncoded(b: Blob) returns (text: seq<Scalar>)
    requires ValidUtf8(b)
    ensures EncodedAll(text) == b
    decreases |b|
  {
    text := [];
    if b != [] {
      var n := Utf8Length(b).value;
      var c := ScalarAtStart(b);
      var rest := ValidIsEncoded(b[n..]);
      text := [c] + rest;
      hide Encoded, Utf8Length;
      assert b == b[..n] + b[n..];
    }
  }

  /** Text is valid exactly when it encodes some scalar values. */
  lemma ValidIff(b: Blob)
    ensures ValidUtf8(b) <==> exists text :: EncodedAll(text) == b
  {
    if ValidUtf8(b) {
      var text := ValidIsEncoded(b);
    } else if text :| EncodedAll(text) == b {
      EncodedIsValid(text);
    }
  }
}
