/** UTF-8, as `Buffer.from(string)` and `buffer.toString()` use it to turn a
    username into octets and back. The decoder is strict: malformed input gives None. */
module Utf8 {
  import opened Wrappers
  import opened Bytes

  /** The one to four octets of a code point. */
  function EncodeChar(c: char): (r: seq<byte>)
    ensures 1 <= |r| <= 4
  {
    var cp := c as int;
    if cp < 0x80 then [cp]
    else if cp < 0x800 then [0xC0 + cp / 64, 0x80 + cp % 64]
    else if cp < 0x10000 then [0xE0 + cp / 64 / 64, 0x80 + cp / 64 % 64, 0x80 + cp % 64]
    else [0xF0 + cp / 64 / 64 / 64, 0x80 + cp / 64 / 64 % 64, 0x80 + cp / 64 % 64, 0x80 + cp % 64]
  }

  /** The UTF-8 octets of a string. */
  function Encode(s: string): (r: seq<byte>)
    ensures |s| <= |r| <= 4 * |s|
  {
    if s == [] then [] else EncodeChar(s[0]) + Encode(s[1..])
  }

  /** A continuation octet 10xxxxxx. */
  predicate IsContinuation(b: byte) {
    0x80 <= b < 0xC0
  }

  /** The character of a Unicode scalar value; None for surrogates and values past U+10FFFF. */
  function ScalarChar(cp: int): (r: Option<char>)
    ensures r.Some? ==> r.value as int == cp
  {
    if 0 <= cp < 0xD800 || 0xE000 <= cp < 0x110000 then Some(cp as char) else None
  }

  /** The first character of `b` and the number of octets it takes; None when
      `b` does not start with a well-formed, shortest-form sequence. */
  function DecodeChar(b: seq<byte>): (r: Option<(char, nat)>)
    requires |b| > 0
    ensures r.Some? ==> 1 <= r.value.1 <= |b|
  {
    var b0 := b[0] as int;
    if b0 < 0x80 then Some((b0 as char, 1))
    else if 0xC0 <= b0 < 0xE0 && |b| >= 2 && IsContinuation(b[1]) then
      var cp := (b0 - 0xC0) * 64 + (b[1] as int - 0x80);
      if cp < 0x80 then None
      else match ScalarChar(cp) case None => None case Some(c) => Some((c, 2))
    else if 0xE0 <= b0 < 0xF0 && |b| >= 3 && IsContinuation(b[1]) && IsContinuation(b[2]) then
      var cp := ((b0 - 0xE0) * 64 + (b[1] as int - 0x80)) * 64 + (b[2] as int - 0x80);
      if cp < 0x800 then None
      else match ScalarChar(cp) case None => None case Some(c) => Some((c, 3))
    else if 0xF0 <= b0 < 0xF8 && |b| >= 4 && IsContinuation(b[1]) && IsContinuation(b[2]) && IsContinuation(b[3]) then
      var cp := (((b0 - 0xF0) * 64 + (b[1] as int - 0x80)) * 64 + (b[2] as int - 0x80)) * 64 + (b[3] as int - 0x80);
      if cp < 0x10000 then None
      else match ScalarChar(cp) case None => None case Some(c) => Some((c, 4))
    else None
  }

  /** A character the decoder accepts is encoded by exactly the octets it consumed. */
  lemma EncodeDecodeChar(b: seq<byte>)
    requires |b| > 0 && DecodeChar(b).Some?
    ensures EncodeChar(DecodeChar(b).value.0) == b[..DecodeChar(b).value.1]
  {
    var b0 := b[0] as int;
    var c := DecodeChar(b).value.0;
    var cp := c as int;
    if b0 < 0x80 {
    } else if b0 < 0xE0 {
      var x1 := b[1] as int - 0x80;
      assert cp == (b0 - 0xC0) * 64 + x1;
      assert cp / 64 == b0 - 0xC0 && cp % 64 == x1;
      assert 0x80 <= cp < 0x800 && DecodeChar(b).value.1 == 2;
      assert EncodeChar(c) == [b[0], b[1]] == b[..2];
    } else if b0 < 0xF0 {
      var x1, x2 := b[1] as int - 0x80, b[2] as int - 0x80;
      var hi := (b0 - 0xE0) * 64 + x1;
      assert cp == hi * 64 + x2;
      assert cp / 64 == hi && cp % 64 == x2;
      assert hi / 64 == b0 - 0xE0 && hi % 64 == x1;
      assert 0x800 <= cp < 0x10000 && DecodeChar(b).value.1 == 3;
      assert EncodeChar(c) == [b[0], b[1], b[2]] == b[..3];
    } else {
      var x1, x2, x3 := b[1] as int - 0x80, b[2] as int - 0x80, b[3] as int - 0x80;
      var hi := (b0 - 0xF0) * 64 + x1;
      var mid := hi * 64 + x2;
      assert cp == mid * 64 + x3;
      assert cp / 64 == mid && cp % 64 == x3;
      assert mid / 64 == hi && mid % 64 == x2;
      assert hi / 64 == b0 - 0xF0 && hi % 64 == x1;
      assert 0x10000 <= cp && DecodeChar(b).value.1 == 4;
      assert EncodeChar(c) == [b[0], b[1], b[2], b[3]] == b[..4];
    }
  }

  /** The string whose UTF-8 octets are `b`, or None when `b` is malformed.
      Whatever it accepts is the encoding of its result: the decoder admits
      only the forms the encoder produces. */
  function Decode(b: seq<byte>): (r: Option<string>)
    ensures r.Some? ==> Encode(r.value) == b
    decreases |b|
  {
    if b == [] then Some("")
    else
      match DecodeChar(b)
      case None => None
      case Some((c, n)) =>
        match Decode(b[n..])
        case None => None
        case Some(rest) =>
          DecodeStep(b, c, n, rest);
          Some([c] + rest)
  }

  /** One decoded character in front of the text of the remaining octets is
      encoded by the octets it was decoded from. */
  lemma DecodeStep(b: seq<byte>, c: char, n: nat, rest: string)
    requires |b| > 0 && DecodeChar(b) == Some((c, n)) && Encode(rest) == b[n..]
    ensures Encode([c] + rest) == b
  {
    EncodeDecodeChar(b);
    assert ([c] + rest)[1..] == rest;
    assert b == b[..n] + b[n..];
  }

  /** The leading character's octets decode back to it, whatever follows. */
  lemma DecodeEncodeChar(c: char, rest: seq<byte>)
    ensures DecodeChar(EncodeChar(c) + rest) == Some((c, |EncodeChar(c)|))
  {
    var cp := c as int;
    var b := EncodeChar(c) + rest;
    var q1, r1 := cp / 64, cp % 64;
    var q2, r2 := q1 / 64, q1 % 64;
    var q3, r3 := q2 / 64, q2 % 64;
    assert cp == q1 * 64 + r1;
    assert q1 == q2 * 64 + r2;
    assert q2 == q3 * 64 + r3;
    if cp < 0x80 {
      assert b[0] == cp;
    } else if cp < 0x800 {
      assert b[0] == 0xC0 + q1 && b[1] == 0x80 + r1;
      assert (b[0] as int - 0xC0) * 64 + (b[1] as int - 0x80) == cp;
      assert 0xC0 <= b[0] < 0xE0 && IsContinuation(b[1]) && ScalarChar(cp) == Some(c);
      assert DecodeChar(b) == Some((c, 2));
    } else if cp < 0x10000 {
      assert b[0] == 0xE0 + q2 && b[1] == 0x80 + r2 && b[2] == 0x80 + r1;
      assert ((b[0] as int - 0xE0) * 64 + (b[1] as int - 0x80)) * 64 + (b[2] as int - 0x80) == cp;
      assert 0xE0 <= b[0] < 0xF0 && IsContinuation(b[1]) && IsContinuation(b[2]) && ScalarChar(cp) == Some(c);
      assert DecodeChar(b) == Some((c, 3));
    } else {
      assert b[0] == 0xF0 + q3 && b[1] == 0x80 + r3 && b[2] == 0x80 + r2 && b[3] == 0x80 + r1;
      assert (((b[0] as int - 0xF0) * 64 + (b[1] as int - 0x80)) * 64 + (b[2] as int - 0x80)) * 64 + (b[3] as int - 0x80) == cp;
      assert 0xF0 <= b[0] < 0xF8 && IsContinuation(b[1]) && IsContinuation(b[2]) && IsContinuation(b[3]);
      assert ScalarChar(cp) == Some(c);
      assert DecodeChar(b) == Some((c, 4));
    }
  }

  /** Decoding undoes encoding: every string survives the trip through octets. */
  lemma {:induction false} DecodeEncode(s: string)
    ensures Decode(Encode(s)) == Some(s)
  {
    if s != [] {
      var head := EncodeChar(s[0]);
      var b := Encode(s);
      assert b == head + Encode(s[1..]);
      DecodeEncodeChar(s[0], Encode(s[1..]));
      assert b[|head|..] == Encode(s[1..]);
      DecodeEncode(s[1..]);
      assert s == [s[0]] + s[1..];
    }
  }
}
