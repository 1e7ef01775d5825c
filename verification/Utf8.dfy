/**
 UTF-8 as section 4 of RFC 3629 defines it: encoding, and a decoder that reports
 what is wrong at the first malformed place, strictly or with replacement.
 */
module Utf8 {
  type Byte = x: int | 0 <= x < 256

  /** A Unicode scalar value: no surrogates. */
  type Scalar = c: int | 0 <= c < 0x110000 && !(0xD800 <= c < 0xE000) witness 0

  const REPLACEMENT: Scalar := 0xFFFD

  function EncodeChar(c: Scalar): (r: seq<Byte>)
    ensures 1 <= |r| <= 4
  {
    if c < 0x80 then [c]
    else if c < 0x800 then [0xC0 + c / 64, 0x80 + c % 64]
    else if c < 0x10000 then [0xE0 + c / 4096, 0x80 + c / 64 % 64, 0x80 + c % 64]
    else [0xF0 + c / 262144, 0x80 + c / 4096 % 64, 0x80 + c / 64 % 64, 0x80 + c % 64]
  }

  function Encode(text: seq<Scalar>): seq<Byte> {
    if text == [] then [] else EncodeChar(text[0]) + Encode(text[1..])
  }

  predicate Continuation(b: Byte) {
    0x80 <= b < 0xC0
  }

  /** What stands at the front of some bytes: a character of a length, a truncated one, or an error of a length. */
  datatype Front = Char(length: nat, scalar: Scalar) | Truncated | Malformed(length: nat)

  /** The second byte allowed after a leading byte. */
  predicate SecondOk(lead: Byte, second: Byte) {
    && Continuation(second)
    && (lead == 0xE0 ==> second >= 0xA0)
    && (lead == 0xED ==> second < 0xA0)
    && (lead == 0xF0 ==> second >= 0x90)
    && (lead == 0xF4 ==> second < 0x90)
  }

  /** The six payload bits of a continuation byte. */
  function Six(b: Byte): int {
    b as int - 0x80
  }

  function Look(data: seq<Byte>): (f: Front)
    requires data != []
    ensures f.Char? ==> 1 <= f.length <= |data|
    ensures f.Malformed? ==> 1 <= f.length <= |data|
  {
    var a: int := data[0];
    if a < 0x80 then Char(1, a)
    else if a < 0xC2 || a >= 0xF5 then Malformed(1)
    else if |data| < 2 then Truncated
    else if !SecondOk(a, data[1]) then Malformed(1)
    else if a < 0xE0 then Char(2, (a - 0xC0) * 64 + Six(data[1]))
    else if |data| < 3 then Truncated
    else if !Continuation(data[2]) then Malformed(2)
    else if a < 0xF0 then Char(3, (a - 0xE0) * 4096 + Six(data[1]) * 64 + Six(data[2]))
    else if |data| < 4 then Truncated
    else if !Continuation(data[3]) then Malformed(3)
    else Char(4, (a - 0xF0) * 262144 + Six(data[1]) * 4096 + Six(data[2]) * 64 + Six(data[3]))
  }

  datatype Decoded = Ok(text: seq<Scalar>) | Bad(start: nat, end: nat, unexpectedEnd: bool)

  /** Strict decoding: all of it, or where the first error is. */
  function Decode(data: seq<Byte>): (r: Decoded)
    ensures r.Bad? ==> r.start < r.end <= |data| && (r.unexpectedEnd ==> r.end == |data|)
  {
    if data == [] then Ok([])
    else
      match Look(data)
      case Truncated => Bad(0, |data|, true)
      case Malformed(n) => Bad(0, n, false)
      case Char(n, c) =>
        match Decode(data[n..])
        case Ok(text) => Ok([c] + text)
        case Bad(start, end, unexpectedEnd) => Bad(start + n, end + n, unexpectedEnd)
  }

  /** Decoding with errors replaced. */
  function DecodeReplacing(data: seq<Byte>): seq<Scalar> {
    if data == [] then []
    else
      match Look(data)
      case Truncated => [REPLACEMENT]
      case Malformed(n) => [REPLACEMENT] + DecodeReplacing(data[n..])
      case Char(n, c) => [c] + DecodeReplacing(data[n..])
  }

  // ------------------------------------------------------------------ round trips

  lemma Digits64(c: nat)
    ensures c == c / 64 * 64 + c % 64
    ensures c / 64 == c / 4096 * 64 + c / 64 % 64
    ensures c / 4096 == c / 262144 * 64 + c / 4096 % 64
  {
  }

  lemma LookAtChar(c: Scalar, rest: seq<Byte>)
    ensures Look(EncodeChar(c) + rest) == Char(|EncodeChar(c)|, c)
  {
    Digits64(c);
    var e := EncodeChar(c);
    var data := e + rest;
    assert forall i :: 0 <= i < |e| ==> data[i] == e[i];
  }

  /** A character cut short is recognised as such. */
  lemma LookAtCut(c: Scalar, n: nat)
    requires 0 < n < |EncodeChar(c)|
    ensures Look(EncodeChar(c)[..n]) == Truncated
  {
  }

  /** Digits to base 64 are recovered by division. */
  lemma Pack(x: nat, y: nat)
    requires y < 64
    ensures (x * 64 + y) / 64 == x && (x * 64 + y) % 64 == y
  {
  }

  lemma DivTwice(c: nat)
    ensures c / 64 / 64 == c / 4096 && c / 64 / 64 / 64 == c / 262144
  {
  }

  lemma Unpack(w: nat, x: nat, y: nat, z: nat)
    requires x < 64 && y < 64 && z < 64
    ensures var c := w * 262144 + x * 4096 + y * 64 + z;
            c % 64 == z && c / 64 % 64 == y && c / 4096 % 64 == x && c / 262144 == w && c / 64 == w * 4096 + x * 64 + y
                && c / 4096 == w * 64 + x
  {
    var c := w * 262144 + x * 4096 + y * 64 + z;
    assert c == ((w * 64 + x) * 64 + y) * 64 + z;
    Pack((w * 64 + x) * 64 + y, z);
    Pack(w * 64 + x, y);
    Pack(w, x);
    DivTwice(c);
  }

  lemma CharIsEncoded(data: seq<Byte>)
    requires data != [] && Look(data).Char?
    ensures data[..Look(data).length] == EncodeChar(Look(data).scalar)
  {
    var n, c := Look(data).length, Look(data).scalar;
    if n == 2 {
      Unpack(0, 0, data[0] as int - 0xC0, Six(data[1]));
    } else if n == 3 {
      Unpack(0, data[0] as int - 0xE0, Six(data[1]), Six(data[2]));
    } else if n == 4 {
      Unpack(data[0] as int - 0xF0, Six(data[1]), Six(data[2]), Six(data[3]));
    }
  }

  /** Only the first byte of a character is not a continuation byte. */
  lemma CharBytes(c: Scalar)
    ensures !Continuation(EncodeChar(c)[0])
    ensures forall i :: 0 < i < |EncodeChar(c)| ==> Continuation(EncodeChar(c)[i])
  {
  }

  lemma {:induction false} DecodeOfEncode(text: seq<Scalar>)
    ensures Decode(Encode(text)) == Ok(text)
  {
    hide Look, EncodeChar;
    if text != [] {
      var rest := Encode(text[1..]);
      LookAtChar(text[0], rest);
      assert Encode(text)[|EncodeChar(text[0])|..] == rest;
      DecodeOfEncode(text[1..]);
    }
  }

  lemma DecodeStep(data: seq<Byte>)
    requires data != [] && Decode(data).Ok?
    ensures Look(data).Char? && Decode(data[Look(data).length..]).Ok?
    ensures Decode(data).text == [Look(data).scalar] + Decode(data[Look(data).length..]).text
  {
    hide Look;
  }

  lemma Rejoin(data: seq<Byte>, n: nat)
    requires n <= |data|
    ensures data[..n] + data[n..] == data
  {
  }

  lemma EncodeCons(c: Scalar, text: seq<Scalar>)
    ensures Encode([c] + text) == EncodeChar(c) + Encode(text)
  {
    hide EncodeChar;
    assert ([c] + text)[1..] == text;
  }

  lemma {:induction false} EncodeOfDecode(data: seq<Byte>)
    requires Decode(data).Ok?
    ensures Encode(Decode(data).text) == data
    decreases |data|
  {
    if data != [] {
      hide *;
      DecodeStep(data);
      CharIsEncoded(data);
      var c, head, tail := Look(data).scalar, data[..Look(data).length], data[Look(data).length..];
      EncodeOfDecode(tail);
      EncodeCons(c, Decode(tail).text);
      Rejoin(data, Look(data).length);
    }
  }

  /** Whole characters followed by a part of one: the error is at the cut, and reads as an unexpected end. */
  lemma {:induction false} DecodeCut(text: seq<Scalar>, c: Scalar, n: nat)
    requires 0 < n < |EncodeChar(c)|
    ensures var data := Encode(text) + EncodeChar(c)[..n];
            Decode(data) == Bad(|Encode(text)|, |data|, true)
  {
    hide Look, EncodeChar;
    var part := EncodeChar(c)[..n];
    if text == [] {
      LookAtCut(c, n);
      assert Encode(text) + part == part;
    } else {
      var rest := Encode(text[1..]);
      LookAtChar(text[0], rest + part);
      assert Encode(text) + part == EncodeChar(text[0]) + (rest + part);
      assert (Encode(text) + part)[|EncodeChar(text[0])|..] == rest + part;
      DecodeCut(text[1..], c, n);
    }
  }

  lemma {:induction false} ReplacingDecoded(data: seq<Byte>)
    requires Decode(data).Ok?
    ensures DecodeReplacing(data) == Decode(data).text
  {
    hide Look;
    if data != [] { ReplacingDecoded(data[Look(data).length..]); }
  }

  lemma {:induction false} EncodeConcat(a: seq<Scalar>, b: seq<Scalar>)
    ensures Encode(a + b) == Encode(a) + Encode(b)
    decreases |a|
  {
    if a == [] {
      assert a + b == b;
    } else {
      var rest := a[1..];
      EncodeConcat(rest, b);
      assert a == [a[0]] + rest && a + b == [a[0]] + (rest + b);
      hide *;
      EncodeCons(a[0], rest);
      EncodeCons(a[0], rest + b);
    }
  }

  /** Strict decoding of a text that is followed by something malformed fails there. */
  lemma {:induction false} DecodeMalformed(text: seq<Scalar>, rest: seq<Byte>)
    requires rest != [] && Look(rest).Malformed?
    ensures var at := |Encode(text)|;
            Decode(Encode(text) + rest) == Bad(at, at + Look(rest).length, false)
  {
    hide EncodeChar, Look;
    if text == [] {
      assert Encode(text) + rest == rest;
    } else {
      FrontThenRest(text, rest);
      DecodeMalformed(text[1..], rest);
    }
  }

  /** Replacing errors keeps the text before them. */
  lemma {:induction false} ReplacingKeepsText(text: seq<Scalar>, rest: seq<Byte>)
    ensures DecodeReplacing(Encode(text) + rest) == text + DecodeReplacing(rest)
  {
    hide EncodeChar, Look;
    if text == [] {
      assert Encode(text) + rest == rest;
    } else {
      FrontThenRest(text, rest);
      ReplacingKeepsText(text[1..], rest);
    }
  }

  lemma FrontThenRest(text: seq<Scalar>, rest: seq<Byte>)
    requires text != []
    ensures var data, n := Encode(text) + rest, |EncodeChar(text[0])|;
            data != [] && Look(data) == Char(n, text[0]) && data[n..] == Encode(text[1..]) + rest
            && |Encode(text)| == n + |Encode(text[1..])|
  {
    hide EncodeChar, Look;
    var e, tail := EncodeChar(text[0]), Encode(text[1..]);
    assert Encode(text) == e + tail;
    hide Encode;
    Associates(e, tail, rest);
    LookAtChar(text[0], tail + rest);
  }

  lemma Associates(a: seq<Byte>, b: seq<Byte>, c: seq<Byte>)
    ensures a + b + c == a + (b + c) && (a + b + c)[|a|..] == b + c
  {
  }
}
