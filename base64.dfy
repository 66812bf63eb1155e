/**
 * The URL- and filename-safe base64 encoding of section 5 of RFC 4648, as the
 * `URL_SAFE` engine of the `base64` crate applies it: alphabet `A-Z a-z 0-9 - _`,
 * every full group of three bytes becomes four characters, and a final group
 * of one or two bytes is padded with `=` to four characters.
 *
 * `Decode` is not used by the system; it is the inverse that the lemmas below
 * prove `Encode` against.
 */
module Base64Url {
  import opened Wrappers

  type byte = x: int | 0 <= x < 256
  type sextet = x: int | 0 <= x < 64

  const Pad: char := '='

  /** The characters of the URL-safe alphabet (table 2 of RFC 4648). */
  predicate IsUrlSafeChar(c: char) {
    ('A' <= c <= 'Z') || ('a' <= c <= 'z') || ('0' <= c <= '9') || c == '-' || c == '_'
  }

  /** The character that encodes a 6-bit value. */
  function Char(v: sextet): (c: char)
    ensures IsUrlSafeChar(c)
  {
    if v < 26 then ('A' as int + v) as char
    else if v < 52 then ('a' as int + (v - 26)) as char
    else if v < 62 then ('0' as int + (v - 52)) as char
    else if v == 62 then '-'
    else '_'
  }

  /** The 6-bit value a character encodes, or None for a character outside the alphabet. */
  function Value(c: char): (r: Option<sextet>)
    ensures r.Some? <==> IsUrlSafeChar(c)
  {
    if 'A' <= c <= 'Z' then Some(c as int - 'A' as int)
    else if 'a' <= c <= 'z' then Some(c as int - 'a' as int + 26)
    else if '0' <= c <= '9' then Some(c as int - '0' as int + 52)
    else if c == '-' then Some(62)
    else if c == '_' then Some(63)
    else None
  }

  lemma ValueOfChar(v: sextet)
    ensures Value(Char(v)) == Some(v)
  {
  }

  /** Three bytes as four characters, most significant bits first. */
  function EncodeTriple(b0: byte, b1: byte, b2: byte): (s: string)
    ensures |s| == 4 && UrlSafe(s)
  {
    [Char(b0 / 4), Char((b0 % 4) * 16 + b1 / 16), Char((b1 % 16) * 4 + b2 / 64), Char(b2 % 64)]
  }

  /** A final single byte: two characters and two pads. */
  function EncodeSingle(b0: byte): (s: string)
    ensures |s| == 4 && s[2] == Pad && s[3] == Pad
  {
    [Char(b0 / 4), Char((b0 % 4) * 16), Pad, Pad]
  }

  /** A final pair of bytes: three characters and one pad. */
  function EncodePair(b0: byte, b1: byte): (s: string)
    ensures |s| == 4 && s[3] == Pad
  {
    [Char(b0 / 4), Char((b0 % 4) * 16 + b1 / 16), Char((b1 % 16) * 4), Pad]
  }

  /** The padded URL-safe encoding of `b`. */
  function Encode(b: seq<byte>): (s: string)
    ensures |s| == 4 * ((|b| + 2) / 3)
    decreases |b|
  {
    if |b| == 0 then ""
    else if |b| == 1 then EncodeSingle(b[0])
    else if |b| == 2 then EncodePair(b[0], b[1])
    else EncodeTriple(b[0], b[1], b[2]) + Encode(b[3..])
  }

  /** Four alphabet characters as three bytes. */
  function DecodeGroup(c0: char, c1: char, c2: char, c3: char): Option<seq<byte>> {
    if IsUrlSafeChar(c0) && IsUrlSafeChar(c1) && IsUrlSafeChar(c2) && IsUrlSafeChar(c3) then
      var v0, v1, v2, v3 := Value(c0).value, Value(c1).value, Value(c2).value, Value(c3).value;
      Some([v0 * 4 + v1 / 16, (v1 % 16) * 16 + v2 / 4, (v2 % 4) * 64 + v3])
    else
      None
  }

  /** A final group `c0 c1 c2 =` or `c0 c1 = =` as two bytes or one. */
  function DecodeFinal(c0: char, c1: char, c2: char): Option<seq<byte>> {
    if !IsUrlSafeChar(c0) || !IsUrlSafeChar(c1) then None
    else
      var v0, v1 := Value(c0).value, Value(c1).value;
      if c2 == Pad then Some([v0 * 4 + v1 / 16])
      else if IsUrlSafeChar(c2) then Some([v0 * 4 + v1 / 16, (v1 % 16) * 16 + Value(c2).value / 4])
      else None
  }

  /** Decodes a padded URL-safe string; None when `s` is not such an encoding. */
  function Decode(s: string): (r: Option<seq<byte>>)
    decreases |s|
  {
    if |s| == 0 then Some([])
    else if |s| < 4 then None
    else if |s| == 4 && s[3] == Pad then DecodeFinal(s[0], s[1], s[2])
    else
      match (DecodeGroup(s[0], s[1], s[2], s[3]), Decode(s[4..]))
      case (Some(group), Some(rest)) => Some(group + rest)
      case _ => None
  }

  lemma DecodeSingle(b0: byte)
    ensures Decode(Encode([b0])) == Some([b0])
  {
    ValueOfChar(b0 / 4);
    ValueOfChar((b0 % 4) * 16);
    assert (b0 / 4) * 4 + ((b0 % 4) * 16) / 16 == b0;
  }

  lemma DecodePair(b0: byte, b1: byte)
    ensures Decode(Encode([b0, b1])) == Some([b0, b1])
  {
    var v1 := (b0 % 4) * 16 + b1 / 16;
    ValueOfChar(b0 / 4);
    ValueOfChar(v1);
    ValueOfChar((b1 % 16) * 4);
    assert v1 / 16 == b0 % 4 && v1 % 16 == b1 / 16;
    assert (b0 / 4) * 4 + v1 / 16 == b0;
    assert (v1 % 16) * 16 + ((b1 % 16) * 4) / 4 == b1;
  }

  /** The bit arithmetic that undoes `EncodeTriple`. */
  lemma TripleValues(b0: byte, b1: byte, b2: byte)
    ensures var v0, v1, v2, v3 := b0 / 4, (b0 % 4) * 16 + b1 / 16, (b1 % 16) * 4 + b2 / 64, b2 % 64;
      v0 * 4 + v1 / 16 == b0 && (v1 % 16) * 16 + v2 / 4 == b1 && (v2 % 4) * 64 + v3 == b2
  {
    var v1 := (b0 % 4) * 16 + b1 / 16;
    var v2 := (b1 % 16) * 4 + b2 / 64;
    assert v1 / 16 == b0 % 4 && v1 % 16 == b1 / 16;
    assert v2 / 4 == b1 % 16 && v2 % 4 == b2 / 64;
  }

  lemma GroupOfTriple(b0: byte, b1: byte, b2: byte)
    ensures var g := EncodeTriple(b0, b1, b2); DecodeGroup(g[0], g[1], g[2], g[3]) == Some([b0, b1, b2])
  {
    ValueOfChar(b0 / 4);
    ValueOfChar((b0 % 4) * 16 + b1 / 16);
    ValueOfChar((b1 % 16) * 4 + b2 / 64);
    ValueOfChar(b2 % 64);
    TripleValues(b0, b1, b2);
  }

  lemma DecodeTriple(b0: byte, b1: byte, b2: byte, rest: string, tail: seq<byte>)
    requires Decode(rest) == Some(tail)
    ensures Decode(EncodeTriple(b0, b1, b2) + rest) == Some([b0, b1, b2] + tail)
  {
    var g := EncodeTriple(b0, b1, b2);
    var s := g + rest;
    assert s[0] == g[0] && s[1] == g[1] && s[2] == g[2] && s[3] == g[3] && s[4..] == rest;
    GroupOfTriple(b0, b1, b2);
  }

  lemma {:induction false} DecodeEncode(b: seq<byte>)
    ensures Decode(Encode(b)) == Some(b)
    decreases |b|
  {
    if |b| == 1 {
      assert b == [b[0]];
      DecodeSingle(b[0]);
    } else if |b| == 2 {
      assert b == [b[0], b[1]];
      DecodePair(b[0], b[1]);
    } else if |b| >= 3 {
      var tail := b[3..];
      assert b == [b[0], b[1], b[2]] + tail;
      DecodeEncode(tail);
      EncodeStep(b[0], b[1], b[2], tail);
    }
  }

  /** One group of the induction: the first three bytes come back in front of the rest. */
  lemma EncodeStep(b0: byte, b1: byte, b2: byte, tail: seq<byte>)
    requires Decode(Encode(tail)) == Some(tail)
    ensures Decode(Encode([b0, b1, b2] + tail)) == Some([b0, b1, b2] + tail)
  {
    var b := [b0, b1, b2] + tail;
    assert b[3..] == tail;
    assert Encode(b) == EncodeTriple(b0, b1, b2) + Encode(tail);
    DecodeTriple(b0, b1, b2, Encode(tail), tail);
  }

  /** Distinct byte strings have distinct encodings. */
  lemma EncodeInjective(a: seq<byte>, b: seq<byte>)
    requires Encode(a) == Encode(b)
    ensures a == b
  {
    DecodeEncode(a);
    DecodeEncode(b);
  }

  /** Every character is in the URL-safe alphabet (so none is padding). */
  predicate UrlSafe(s: string) {
    forall i :: 0 <= i < |s| ==> IsUrlSafeChar(s[i])
  }

  lemma UrlSafeConcat(a: string, b: string)
    requires UrlSafe(a) && UrlSafe(b)
    ensures UrlSafe(a + b)
  {
    forall i | 0 <= i < |a + b|
      ensures IsUrlSafeChar((a + b)[i])
    {
      if i >= |a| {
        assert (a + b)[i] == b[i - |a|];
      }
    }
  }

  /** An input of whole three-byte groups encodes without padding. */
  lemma {:induction false} EncodeAlphabet(b: seq<byte>)
    requires |b| % 3 == 0
    ensures UrlSafe(Encode(b))
    decreases |b|
  {
    if |b| != 0 {
      EncodeAlphabet(b[3..]);
      UrlSafeConcat(EncodeTriple(b[0], b[1], b[2]), Encode(b[3..]));
    }
  }
}
