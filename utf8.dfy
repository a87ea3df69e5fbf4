/**
 * UTF-8 (section 3 of RFC 3629), which `Buffer.from(string)` uses: the byte
 * count of that encoding is what the client sends as Content-Length.
 */
module Utf8 {
  import opened Wrappers

  type Byte = b: int | 0 <= b < 256

  predicate IsAscii(c: char)
  {
    (c as int) < 0x80
  }

  /** The number of bytes UTF-8 spends on one scalar value. */
  function CharLength(c: char): nat
  {
    var n := c as int;
    if n < 0x80 then 1 else if n < 0x800 then 2 else if n < 0x1_0000 then 3 else 4
  }

  /** The bytes of one scalar value, as the table in section 3 of RFC 3629 lays them out. */
  function EncodeChar(c: char): (bs: seq<Byte>)
    ensures |bs| == CharLength(c)
  {
    var n := c as int;
    if n < 0x80 then [n]
    else if n < 0x800 then [0xC0 + n / 64, 0x80 + n % 64]
    else if n < 0x1_0000 then [0xE0 + n / 64 / 64, 0x80 + n / 64 % 64, 0x80 + n % 64]
    else [0xF0 + n / 64 / 64 / 64, 0x80 + n / 64 / 64 % 64, 0x80 + n / 64 % 64, 0x80 + n % 64]
  }

  /** `Buffer.from(s)`: the UTF-8 encoding of the string. */
  function Encode(s: string): seq<Byte>
  {
    if s == [] then [] else EncodeChar(s[0]) + Encode(s[1..])
  }

  /** The sum of the per-character byte counts. */
  function ByteLength(s: string): nat
  {
    if s == [] then 0 else CharLength(s[0]) + ByteLength(s[1..])
  }

  /** `Buffer.from(s).length` is the sum of the per-character byte counts. */
  lemma {:induction false} EncodeLength(s: string)
    ensures |Encode(s)| == ByteLength(s)
  {
    if s != [] {
      EncodeLength(s[1..]);
    }
  }

  /**
   * The byte length is at least the character count and at most four times it,
   * and it equals the character count exactly when every character is ASCII.
   */
  lemma {:induction false} ByteLengthBounds(s: string)
    ensures |s| <= ByteLength(s) <= 4 * |s|
    ensures ByteLength(s) == |s| <==> forall i :: 0 <= i < |s| ==> IsAscii(s[i])
  {
    if s != [] {
      ByteLengthBounds(s[1..]);
      assert forall i :: 1 <= i < |s| ==> s[i] == s[1..][i - 1];
    }
  }

  predicate IsContinuation(b: Byte)
  {
    0x80 <= b < 0xC0
  }

  /**
   * Read one well-formed UTF-8 sequence from the front of `bs`: the scalar value
   * and the number of bytes it took. Overlong forms, surrogates and values past
   * U+10FFFF are refused, as section 3 of RFC 3629 requires.
   */
  function DecodeChar(bs: seq<Byte>): (r: Option<(char, nat)>)
    ensures r.Some? ==> 1 <= r.value.1 <= |bs|
  {
    if bs == [] then None
    else if bs[0] < 0x80 then Some((bs[0] as char, 1))
    else if 0xC0 <= bs[0] < 0xE0 then
      if |bs| < 2 || !IsContinuation(bs[1]) then None
      else
        var n := (bs[0] as int - 0xC0) * 64 + (bs[1] as int - 0x80);
        if n < 0x80 then None else Some((n as char, 2))
    else if 0xE0 <= bs[0] < 0xF0 then
      if |bs| < 3 || !IsContinuation(bs[1]) || !IsContinuation(bs[2]) then None
      else
        var n := (bs[0] as int - 0xE0) * 4096 + (bs[1] as int - 0x80) * 64 + (bs[2] as int - 0x80);
        if n < 0x800 || 0xD800 <= n < 0xE000 then None else Some((n as char, 3))
    else if 0xF0 <= bs[0] < 0xF8 then
      if |bs| < 4 || !IsContinuation(bs[1]) || !IsContinuation(bs[2]) || !IsContinuation(bs[3]) then None
      else
        var n := (bs[0] as int - 0xF0) * 262144 + (bs[1] as int - 0x80) * 4096
                 + (bs[2] as int - 0x80) * 64 + (bs[3] as int - 0x80);
        if n < 0x1_0000 || n >= 0x11_0000 then None else Some((n as char, 4))
    else None
  }

  /** Decode a whole byte sequence; None when it is not well-formed UTF-8. */
  function Decode(bs: seq<Byte>): Option<string>
    decreases |bs|
  {
    if bs == [] then Some("")
    else match DecodeChar(bs)
      case None => None
      case Some((c, k)) =>
        match Decode(bs[k..])
        case None => None
        case Some(s) => Some([c] + s)
  }

  lemma DecodeEncodeChar(c: char, rest: seq<Byte>)
    ensures DecodeChar(EncodeChar(c) + rest) == Some((c, CharLength(c)))
  {
    var n := c as int;
    var bs := EncodeChar(c) + rest;
    var q1, r1 := n / 64, n % 64;
    var q2, r2 := q1 / 64, q1 % 64;
    var q3, r3 := q2 / 64, q2 % 64;
    assert n == 64 * q1 + r1 && q1 == 64 * q2 + r2 && q2 == 64 * q3 + r3;
    if n < 0x80 {
    } else if n < 0x800 {
      assert bs[0] == 0xC0 + q1 && bs[1] == 0x80 + r1;
      assert (n as char) == c;
    } else if n < 0x1_0000 {
      assert bs[0] == 0xE0 + q2 && bs[1] == 0x80 + r2 && bs[2] == 0x80 + r1;
      assert (n as char) == c;
    } else {
      assert bs[0] == 0xF0 + q3 && bs[1] == 0x80 + r3 && bs[2] == 0x80 + r2 && bs[3] == 0x80 + r1;
      assert (n as char) == c;
    }
  }

  /** UTF-8 decoding undoes the encoding: Content-Length counts the bytes of an injective encoding. */
  lemma {:induction false} DecodeEncode(s: string)
    ensures Decode(Encode(s)) == Some(s)
  {
    if s != [] {
      DecodeEncode(s[1..]);
      DecodeEncodeChar(s[0], Encode(s[1..]));
      var bs := Encode(s);
      assert bs[CharLength(s[0])..] == Encode(s[1..]);
      assert [s[0]] + s[1..] == s;
    }
  }
}
