/** The base64 encoding of section 4 of RFC 4648 (alphabet A-Z a-z 0-9 + /,
    padding with '='), as Node's `Buffer.toString('base64')` produces it.
    The decoder accepts only padded groups of four. As section 3.5 of RFC 4648
    allows, it does not check that the unused pad bits are zero. */
module Base64 {
  import opened Wrappers
  import opened Bytes

  type sextet = s: int | 0 <= s < 64

  /** The alphabet character of a 6-bit value (Table 1 of RFC 4648). */
  function CharOf(v: sextet): (c: char)
    ensures c != '='
  {
    if v < 26 then ('A' as int + v) as char
    else if v < 52 then ('a' as int + (v - 26)) as char
    else if v < 62 then ('0' as int + (v - 52)) as char
    else if v == 62 then '+'
    else '/'
  }

  /** The 6-bit value of an alphabet character; None for any other character, '=' included. */
  function ValueOf(c: char): (r: Option<sextet>)
    ensures r.Some? ==> CharOf(r.value) == c
  {
    if 'A' <= c <= 'Z' then Some(c as int - 'A' as int)
    else if 'a' <= c <= 'z' then Some(c as int - 'a' as int + 26)
    else if '0' <= c <= '9' then Some(c as int - '0' as int + 52)
    else if c == '+' then Some(62)
    else if c == '/' then Some(63)
    else None
  }

  lemma ValueOfCharOf(v: sextet)
    ensures ValueOf(CharOf(v)) == Some(v)
  {
  }

  /** The four characters of one full 24-bit group. */
  function EncodeGroup(b0: byte, b1: byte, b2: byte): string {
    [CharOf(b0 / 4), CharOf((b0 % 4) * 16 + b1 / 16), CharOf((b1 % 16) * 4 + b2 / 64), CharOf(b2 % 64)]
  }

  /** Base64 text of an octet sequence: one group per three octets, the last
      group padded with '=' when one or two octets remain. */
  function Encode(b: seq<byte>): (s: string)
    ensures |s| == 4 * ((|b| + 2) / 3)
    decreases |b|
  {
    if |b| == 0 then ""
    else if |b| == 1 then [CharOf(b[0] / 4), CharOf((b[0] % 4) * 16), '=', '=']
    else if |b| == 2 then [CharOf(b[0] / 4), CharOf((b[0] % 4) * 16 + b[1] / 16), CharOf((b[1] % 16) * 4), '=']
    else EncodeGroup(b[0], b[1], b[2]) + Encode(b[3..])
  }

  /** The octets of base64 text, or None when it is not well-formed padded base64. */
  function Decode(s: string): (r: Option<seq<byte>>)
    ensures r.Some? ==> |s| % 4 == 0 && (|s| == 0 <==> r.value == [])
    decreases |s|
  {
    if |s| == 0 then Some([])
    else if |s| < 4 then None
    else
      var v0, v1, v2, v3 := ValueOf(s[0]), ValueOf(s[1]), ValueOf(s[2]), ValueOf(s[3]);
      if v0.None? || v1.None? then None
      else if |s| == 4 && s[2] == '=' && s[3] == '=' then
        Some([v0.value * 4 + v1.value / 16])
      else if |s| == 4 && v2.Some? && s[3] == '=' then
        Some([v0.value * 4 + v1.value / 16, (v1.value % 16) * 16 + v2.value / 4])
      else if v2.None? || v3.None? then None
      else
        match Decode(s[4..])
        case None => None
        case Some(rest) =>
          Some([v0.value * 4 + v1.value / 16,
                (v1.value % 16) * 16 + v2.value / 4,
                (v2.value % 4) * 64 + v3.value] + rest)
  }

  /** The three bit-slicings used by one group undo each other. */
  lemma GroupArithmetic(b0: byte, b1: byte, b2: byte)
    ensures (b0 / 4) * 4 + ((b0 % 4) * 16 + b1 / 16) / 16 == b0
    ensures (((b0 % 4) * 16 + b1 / 16) % 16) * 16 + ((b1 % 16) * 4 + b2 / 64) / 4 == b1
    ensures (((b1 % 16) * 4 + b2 / 64) % 4) * 64 + b2 % 64 == b2
  {
    var x := (b0 % 4) * 16 + b1 / 16;
    assert x / 16 == b0 % 4 && x % 16 == b1 / 16;
    var y := (b1 % 16) * 4 + b2 / 64;
    assert y / 4 == b1 % 16 && y % 4 == b2 / 64;
  }

  /** A last group holding one octet decodes to that octet. */
  lemma DecodeOne(b0: byte)
    ensures Decode(Encode([b0])) == Some([b0])
  {
    var v0, v1 := b0 / 4, (b0 % 4) * 16;
    var s := [CharOf(v0), CharOf(v1), '=', '='];
    assert Encode([b0]) == s;
    GroupArithmetic(b0, 0, 0);
    ValueOfCharOf(v0);
    ValueOfCharOf(v1);
    assert ValueOf(s[0]) == Some(v0) && ValueOf(s[1]) == Some(v1);
    assert v0 * 4 + v1 / 16 == b0;
  }

  /** A last group holding two octets decodes to those octets. */
  lemma DecodeTwo(b0: byte, b1: byte)
    ensures Decode(Encode([b0, b1])) == Some([b0, b1])
  {
    var v0, v1, v2 := b0 / 4, (b0 % 4) * 16 + b1 / 16, (b1 % 16) * 4;
    var s := [CharOf(v0), CharOf(v1), CharOf(v2), '='];
    assert Encode([b0, b1]) == s;
    GroupArithmetic(b0, b1, 0);
    ValueOfCharOf(v0);
    ValueOfCharOf(v1);
    ValueOfCharOf(v2);
    assert ValueOf(s[0]) == Some(v0) && ValueOf(s[1]) == Some(v1) && ValueOf(s[2]) == Some(v2);
    assert v0 * 4 + v1 / 16 == b0;
    assert (v1 % 16) * 16 + v2 / 4 == b1;
    assert Decode(s) == Some([v0 * 4 + v1 / 16, (v1 % 16) * 16 + v2 / 4]);
  }

  /** Text that starts with four alphabet characters decodes them as one full
      group in front of whatever the rest decodes to. */
  lemma DecodeFullGroup(s: string, v0: sextet, v1: sextet, v2: sextet, v3: sextet)
    requires |s| >= 4 && Decode(s[4..]).Some?
    requires ValueOf(s[0]) == Some(v0) && ValueOf(s[1]) == Some(v1)
    requires ValueOf(s[2]) == Some(v2) && ValueOf(s[3]) == Some(v3)
    ensures Decode(s) == Some([v0 * 4 + v1 / 16, (v1 % 16) * 16 + v2 / 4, (v2 % 4) * 64 + v3] + Decode(s[4..]).value)
  {
    assert CharOf(v2) == s[2] && CharOf(v3) == s[3];
    assert s[2] != '=' && s[3] != '=';
    var rest := Decode(s[4..]).value;
    assert Decode(s[4..]) == Some(rest);
  }

  /** A full group in front of more text decodes to its three octets in front of
      whatever the rest decodes to. */
  lemma DecodeGroup(b0: byte, b1: byte, b2: byte, rest: string)
    requires Decode(rest).Some?
    ensures Decode(EncodeGroup(b0, b1, b2) + rest) == Some([b0, b1, b2] + Decode(rest).value)
  {
    var v0, v1, v2, v3 := b0 / 4, (b0 % 4) * 16 + b1 / 16, (b1 % 16) * 4 + b2 / 64, b2 % 64;
    var s := EncodeGroup(b0, b1, b2) + rest;
    assert s[4..] == rest;
    GroupArithmetic(b0, b1, b2);
    ValueOfCharOf(v0);
    ValueOfCharOf(v1);
    ValueOfCharOf(v2);
    ValueOfCharOf(v3);
    assert s[0] == CharOf(v0) && s[1] == CharOf(v1) && s[2] == CharOf(v2) && s[3] == CharOf(v3);
    DecodeFullGroup(s, v0, v1, v2, v3);
    assert [v0 * 4 + v1 / 16, (v1 % 16) * 16 + v2 / 4, (v2 % 4) * 64 + v3] == [b0, b1, b2];
  }

  /** Decoding undoes encoding: base64 loses nothing. */
  lemma {:induction false} DecodeEncode(b: seq<byte>)
    ensures Decode(Encode(b)) == Some(b)
    decreases |b|
  {
    if |b| == 0 {
    } else if |b| == 1 {
      assert b == [b[0]];
      DecodeOne(b[0]);
    } else if |b| == 2 {
      assert b == [b[0], b[1]];
      DecodeTwo(b[0], b[1]);
    } else {
      var tail := b[3..];
      var rest := Encode(tail);
      DecodeEncode(tail);
      DecodeGroup(b[0], b[1], b[2], rest);
      assert Encode(b) == EncodeGroup(b[0], b[1], b[2]) + rest;
      assert b == [b[0], b[1], b[2]] + tail;
    }
  }

  /** Encoding is injective: different octet sequences give different text. */
  lemma EncodeInjective(a: seq<byte>, b: seq<byte>)
    requires Encode(a) == Encode(b)
    ensures a == b
  {
    DecodeEncode(a);
    DecodeEncode(b);
  }
}
