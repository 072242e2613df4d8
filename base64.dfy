/** `Convert.ToBase64String`: the base-64 encoding of RFC 4648 section 4 (the
    standard alphabet, padded with '='), and a decoder for its output. */
module Base64 {
  import opened Basics

  type Byte = x: int | 0 <= x < 256

  /** A 6-bit group, the value one base-64 character carries. */
  type Sextet = x: int | 0 <= x < 64

  const Padding: char := '='

  /** The character for a 6-bit value (Table 1 of RFC 4648). */
  function Char(v: Sextet): (c: char)
    ensures c != Padding
  {
    if v < 26 then ('A' as int + v) as char
    else if v < 52 then ('a' as int + (v - 26)) as char
    else if v < 62 then ('0' as int + (v - 52)) as char
    else if v == 62 then '+'
    else '/'
  }

  /** The 6-bit value of an alphabet character, `None` for any other character. */
  function Value(c: char): Option<Sextet> {
    if 'A' <= c <= 'Z' then Some(c as int - 'A' as int)
    else if 'a' <= c <= 'z' then Some(c as int - 'a' as int + 26)
    else if '0' <= c <= '9' then Some(c as int - '0' as int + 52)
    else if c == '+' then Some(62)
    else if c == '/' then Some(63)
    else None
  }

  /** Three bytes as four characters, without padding. */
  function EncodeGroup(b0: Byte, b1: Byte, b2: Byte): string {
    [Char(b0 / 4), Char((b0 % 4) * 16 + b1 / 16), Char((b1 % 16) * 4 + b2 / 64), Char(b2 % 64)]
  }

  /** The whole encoding: full groups, then a final group padded with one or two '='. */
  function Encode(b: seq<Byte>): (s: string)
    ensures |s| == 4 * ((|b| + 2) / 3)
    decreases |b|
  {
    if |b| == 0 then []
    else if |b| == 1 then [Char(b[0] / 4), Char((b[0] % 4) * 16), Padding, Padding]
    else if |b| == 2 then [Char(b[0] / 4), Char((b[0] % 4) * 16 + b[1] / 16), Char((b[1] % 16) * 4), Padding]
    else EncodeGroup(b[0], b[1], b[2]) + Encode(b[3..])
  }

  /** The bytes that consecutive 6-bit values carry: the first, second and third byte of a group. */
  function FirstByte(v0: Sextet, v1: Sextet): Byte { v0 * 4 + v1 / 16 }
  function SecondByte(v1: Sextet, v2: Sextet): Byte { (v1 % 16) * 16 + v2 / 4 }
  function ThirdByte(v2: Sextet, v3: Sextet): Byte { (v2 % 4) * 64 + v3 }

  /** Four alphabet characters as three bytes. */
  function DecodeGroup(c0: char, c1: char, c2: char, c3: char): Option<seq<Byte>> {
    match (Value(c0), Value(c1), Value(c2), Value(c3))
    case (Some(v0), Some(v1), Some(v2), Some(v3)) =>
      Some([FirstByte(v0, v1), SecondByte(v1, v2), ThirdByte(v2, v3)])
    case _ => None
  }

  /** The last group, which may carry one or two padding characters. */
  function DecodeFinal(c0: char, c1: char, c2: char, c3: char): Option<seq<Byte>> {
    if c2 == Padding && c3 == Padding then
      match (Value(c0), Value(c1))
      case (Some(v0), Some(v1)) => Some([FirstByte(v0, v1)])
      case _ => None
    else if c3 == Padding then
      match (Value(c0), Value(c1), Value(c2))
      case (Some(v0), Some(v1), Some(v2)) => Some([FirstByte(v0, v1), SecondByte(v1, v2)])
      case _ => None
    else DecodeGroup(c0, c1, c2, c3)
  }

  /** Decodes a padded base-64 text; `None` when the text is not one. */
  function Decode(s: string): Option<seq<Byte>>
    decreases |s|
  {
    if |s| == 0 then Some([])
    else if |s| < 4 then None
    else if |s| == 4 then DecodeFinal(s[0], s[1], s[2], s[3])
    else
      match (DecodeGroup(s[0], s[1], s[2], s[3]), Decode(s[4..]))
      case (Some(g), Some(rest)) => Some(g + rest)
      case _ => None
  }

  lemma ValueChar(v: Sextet)
    ensures Value(Char(v)) == Some(v)
  {
  }

  lemma FirstByteOfGroup(b0: Byte, b1: Byte)
    ensures FirstByte(b0 / 4, (b0 % 4) * 16 + b1 / 16) == b0
  {
  }

  lemma SecondByteOfGroup(b0: Byte, b1: Byte, b2: Byte)
    ensures SecondByte((b0 % 4) * 16 + b1 / 16, (b1 % 16) * 4 + b2 / 64) == b1
  {
  }

  lemma ThirdByteOfGroup(b1: Byte, b2: Byte)
    ensures ThirdByte((b1 % 16) * 4 + b2 / 64, b2 % 64) == b2
  {
  }

  lemma GroupRoundTrip(b0: Byte, b1: Byte, b2: Byte)
    ensures var g := EncodeGroup(b0, b1, b2); DecodeGroup(g[0], g[1], g[2], g[3]) == Some([b0, b1, b2])
  {
    var v0, v1, v2, v3 := b0 / 4, (b0 % 4) * 16 + b1 / 16, (b1 % 16) * 4 + b2 / 64, b2 % 64;
    ValueChar(v0);
    ValueChar(v1);
    ValueChar(v2);
    ValueChar(v3);
    FirstByteOfGroup(b0, b1);
    SecondByteOfGroup(b0, b1, b2);
    ThirdByteOfGroup(b1, b2);
    assert EncodeGroup(b0, b1, b2) == [Char(v0), Char(v1), Char(v2), Char(v3)];
  }

  lemma OneByteRoundTrip(b0: Byte)
    ensures Decode(Encode([b0])) == Some([b0])
  {
    ValueChar(b0 / 4);
    ValueChar((b0 % 4) * 16);
  }

  lemma TwoBytesRoundTrip(b0: Byte, b1: Byte)
    ensures Decode(Encode([b0, b1])) == Some([b0, b1])
  {
    var v1 := (b0 % 4) * 16 + b1 / 16;
    var v2 := (b1 % 16) * 4;
    ValueChar(b0 / 4);
    ValueChar(v1);
    ValueChar(v2);
    var s := Encode([b0, b1]);
    assert s == [Char(b0 / 4), Char(v1), Char(v2), Padding];
    assert FirstByte(b0 / 4, v1) == b0;
    assert SecondByte(v1, v2) == b1;
  }

  lemma DecodeFinalGroup(g: string, b0: Byte, b1: Byte, b2: Byte)
    requires g == EncodeGroup(b0, b1, b2)
    ensures Decode(g) == Some([b0, b1, b2])
  {
    GroupRoundTrip(b0, b1, b2);
    assert g[2] != Padding && g[3] != Padding;
  }

  lemma DecodeLeadingGroup(s: string, g: string, rest: string, x: seq<Byte>, y: seq<Byte>)
    requires s == g + rest && |g| == 4 && |rest| >= 4
    requires DecodeGroup(g[0], g[1], g[2], g[3]) == Some(x) && Decode(rest) == Some(y)
    ensures Decode(s) == Some(x + y)
  {
    assert s[4..] == rest;
    assert s[0] == g[0] && s[1] == g[1] && s[2] == g[2] && s[3] == g[3];
  }

  lemma SplitGroup(b: seq<Byte>)
    requires |b| >= 3
    ensures b == [b[0], b[1], b[2]] + b[3..]
  {
  }

  /** A full group followed by the encoding of the rest decodes group by group. */
  lemma GroupThenRest(b: seq<Byte>)
    requires |b| >= 3
    requires Decode(Encode(b[3..])) == Some(b[3..])
    ensures Decode(Encode(b)) == Some(b)
  {
    var g := EncodeGroup(b[0], b[1], b[2]);
    var rest := Encode(b[3..]);
    assert Encode(b) == g + rest;
    if |b| == 3 {
      assert rest == [];
      assert Encode(b) == g;
      DecodeFinalGroup(g, b[0], b[1], b[2]);
      assert b == [b[0], b[1], b[2]];
    } else {
      GroupRoundTrip(b[0], b[1], b[2]);
      SplitGroup(b);
      DecodeLeadingGroup(Encode(b), g, rest, [b[0], b[1], b[2]], b[3..]);
    }
  }

  /** Decoding an encoding gives the bytes back. */
  lemma {:induction false} DecodeEncode(b: seq<Byte>)
    ensures Decode(Encode(b)) == Some(b)
    decreases |b|
  {
    if |b| == 1 {
      assert b == [b[0]];
      OneByteRoundTrip(b[0]);
    } else if |b| == 2 {
      assert b == [b[0], b[1]];
      TwoBytesRoundTrip(b[0], b[1]);
    } else if |b| >= 3 {
      DecodeEncode(b[3..]);
      GroupThenRest(b);
    }
  }

  /** Distinct byte strings have distinct encodings. */
  lemma EncodeInjective(a: seq<Byte>, b: seq<Byte>)
    requires Encode(a) == Encode(b)
    ensures a == b
  {
    DecodeEncode(a);
    DecodeEncode(b);
  }
}
