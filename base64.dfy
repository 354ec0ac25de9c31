/** The base64 alphabet and padding of section 4 of RFC 4648, as used by
    Convert.ToBase64String and Convert.FromBase64String. */
module Base64 {
  import opened Common

  type Byte = x: int | 0 <= x < 256

  /** A six-bit group, the value one base64 character carries. */
  type Sextet = x: int | 0 <= x < 64

  predicate IsBase64Char(c: char) {
    'A' <= c <= 'Z' || 'a' <= c <= 'z' || '0' <= c <= '9' || c == '+' || c == '/'
  }

  function EncodeSextet(v: Sextet): (c: char)
    ensures IsBase64Char(c)
  {
    if v < 26 then ('A' as int + v) as char
    else if v < 52 then ('a' as int + (v - 26)) as char
    else if v < 62 then ('0' as int + (v - 52)) as char
    else if v == 62 then '+'
    else '/'
  }

  function DecodeSextet(c: char): (v: Sextet)
    requires IsBase64Char(c)
  {
    if 'A' <= c <= 'Z' then c as int - 'A' as int
    else if 'a' <= c <= 'z' then c as int - 'a' as int + 26
    else if '0' <= c <= '9' then c as int - '0' as int + 52
    else if c == '+' then 62
    else 63
  }

  lemma DecodeEncodeSextet(v: Sextet)
    ensures DecodeSextet(EncodeSextet(v)) == v
  {
  }

  /** Three bytes become four characters. */
  function EncodeTriple(b0: Byte, b1: Byte, b2: Byte): (s: string)
    ensures |s| == 4 && forall i | 0 <= i < 4 :: IsBase64Char(s[i])
  {
    [EncodeSextet(b0 / 4), EncodeSextet((b0 % 4) * 16 + b1 / 16),
     EncodeSextet((b1 % 16) * 4 + b2 / 64), EncodeSextet(b2 % 64)]
  }

  /** Convert.ToBase64String: full groups of three bytes, then one or two
      trailing bytes padded with '='. */
  function Encode(b: seq<Byte>): (s: string)
    ensures |s| % 4 == 0
    ensures |s| == 0 <==> |b| == 0
    ensures |b| % 3 == 0 ==> 3 * |s| == 4 * |b|
    decreases |b|
  {
    if |b| == 0 then ""
    else if |b| == 1 then [EncodeSextet(b[0] / 4), EncodeSextet((b[0] % 4) * 16), '=', '=']
    else if |b| == 2 then
      [EncodeSextet(b[0] / 4), EncodeSextet((b[0] % 4) * 16 + b[1] / 16), EncodeSextet((b[1] % 16) * 4), '=']
    else EncodeTriple(b[0], b[1], b[2]) + Encode(b[3..])
  }

  /** The characters Convert.FromBase64String skips wherever they stand. */
  predicate IsSkipped(c: char) {
    c == ' ' || c == '\t' || c == '\r' || c == '\n'
  }

  function StripSkipped(s: string): (r: string)
    ensures |r| <= |s|
  {
    if s == [] then []
    else if IsSkipped(s[0]) then StripSkipped(s[1..])
    else [s[0]] + StripSkipped(s[1..])
  }

  function DecodeTriple(c0: Sextet, c1: Sextet, c2: Sextet, c3: Sextet): seq<Byte> {
    [c0 * 4 + c1 / 16, (c1 % 16) * 16 + c2 / 4, (c2 % 4) * 64 + c3]
  }

  /** The last group of four characters, which may end in "=" or "==".
      Bits below the last byte are not checked, as in .NET. */
  function DecodeLastQuad(q0: char, q1: char, q2: char, q3: char): Option<seq<Byte>> {
    if !IsBase64Char(q0) || !IsBase64Char(q1) then None
    else if q2 == '=' && q3 == '=' then
      Some([DecodeSextet(q0) * 4 + DecodeSextet(q1) / 16])
    else if IsBase64Char(q2) && q3 == '=' then
      Some([DecodeSextet(q0) * 4 + DecodeSextet(q1) / 16, (DecodeSextet(q1) % 16) * 16 + DecodeSextet(q2) / 4])
    else if IsBase64Char(q2) && IsBase64Char(q3) then
      Some(DecodeTriple(DecodeSextet(q0), DecodeSextet(q1), DecodeSextet(q2), DecodeSextet(q3)))
    else None
  }

  /** Four characters hold three bytes; the last group gives one to three. */
  function DecodeQuads(s: string): (r: Option<seq<Byte>>)
    requires |s| % 4 == 0
    ensures r.Some? ==> 4 * |r.value| <= 3 * |s| <= 4 * |r.value| + 8
    decreases |s|
  {
    if |s| == 0 then Some([])
    else if |s| == 4 then DecodeLastQuad(s[0], s[1], s[2], s[3])
    else if IsBase64Char(s[0]) && IsBase64Char(s[1]) && IsBase64Char(s[2]) && IsBase64Char(s[3]) then
      match DecodeQuads(s[4..])
      case None => None
      case Some(rest) =>
        Some(DecodeTriple(DecodeSextet(s[0]), DecodeSextet(s[1]), DecodeSextet(s[2]), DecodeSextet(s[3])) + rest)
    else None
  }

  /** Convert.FromBase64String; None stands for the FormatException it
      throws on a length that is not a multiple of four, a character outside
      the alphabet or misplaced padding. */
  function Decode(s: string): (r: Option<seq<Byte>>)
    ensures r.Some? ==> var t := StripSkipped(s);
      |t| % 4 == 0 && 4 * |r.value| <= 3 * |t| <= 4 * |r.value| + 8
  {
    var t := StripSkipped(s);
    if |t| % 4 != 0 then None else DecodeQuads(t)
  }

  /** A character that is neither skipped, in the alphabet nor padding makes
      FromBase64String throw, wherever it stands. */
  lemma ForeignCharacterRejected(s: string, i: nat)
    requires i < |s| && !IsSkipped(s[i]) && !IsBase64Char(s[i]) && s[i] != '='
    ensures Decode(s).None?
  {
    StripKeeps(s, s[i]);
    var t := StripSkipped(s);
    if |t| % 4 == 0 {
      DecodeQuadsRejects(t, s[i]);
    }
  }

  lemma {:induction false} StripKeeps(s: string, c: char)
    requires c in s && !IsSkipped(c)
    ensures c in StripSkipped(s)
  {
    if s[0] != c {
      assert c in s[1..];
      StripKeeps(s[1..], c);
    }
  }

  lemma {:induction false} DecodeQuadsRejects(t: string, c: char)
    requires |t| % 4 == 0 && c in t && !IsBase64Char(c) && c != '='
    ensures DecodeQuads(t).None?
    decreases |t|
  {
    if |t| > 4 && c !in t[..4] {
      var k :| 0 <= k < |t| && t[k] == c;
      assert t[4..][k - 4] == c;
      DecodeQuadsRejects(t[4..], c);
    }
  }

  // ---------------------------------------------------------------------
  // Round trip

  lemma TripleRoundTrip(b0: Byte, b1: Byte, b2: Byte)
    ensures var t := EncodeTriple(b0, b1, b2);
      DecodeTriple(DecodeSextet(t[0]), DecodeSextet(t[1]), DecodeSextet(t[2]), DecodeSextet(t[3])) == [b0, b1, b2]
  {
    DecodeEncodeSextet(b0 / 4);
    DecodeEncodeSextet((b0 % 4) * 16 + b1 / 16);
    DecodeEncodeSextet((b1 % 16) * 4 + b2 / 64);
    DecodeEncodeSextet(b2 % 64);
    var c1 := (b0 % 4) * 16 + b1 / 16;
    var c2 := (b1 % 16) * 4 + b2 / 64;
    assert c1 / 16 == b0 % 4 && c1 % 16 == b1 / 16;
    assert c2 / 4 == b1 % 16 && c2 % 4 == b2 / 64;
  }

  /** Every character Encode writes is in the alphabet or is padding. */
  lemma {:induction false} EncodeAlphabet(b: seq<Byte>)
    ensures forall i | 0 <= i < |Encode(b)| :: IsBase64Char(Encode(b)[i]) || Encode(b)[i] == '='
    decreases |b|
  {
    if |b| > 2 {
      EncodeAlphabet(b[3..]);
      assert Encode(b) == EncodeTriple(b[0], b[1], b[2]) + Encode(b[3..]);
    }
  }

  /** A whole number of byte triples encodes without padding. */
  lemma {:induction false} EncodeNoPadding(b: seq<Byte>)
    requires |b| % 3 == 0
    ensures forall i | 0 <= i < |Encode(b)| :: IsBase64Char(Encode(b)[i])
    decreases |b|
  {
    if |b| > 0 {
      EncodeNoPadding(b[3..]);
      assert Encode(b) == EncodeTriple(b[0], b[1], b[2]) + Encode(b[3..]);
    }
  }

  lemma {:induction false} StripNothing(s: string)
    requires forall i | 0 <= i < |s| :: !IsSkipped(s[i])
    ensures StripSkipped(s) == s
  {
    if s != [] {
      StripNothing(s[1..]);
    }
  }

  lemma DecodeOneByte(b0: Byte)
    ensures DecodeQuads(Encode([b0])) == Some([b0])
  {
    var s := Encode([b0]);
    assert s == [EncodeSextet(b0 / 4), EncodeSextet((b0 % 4) * 16), '=', '='];
    DecodeEncodeSextet(b0 / 4);
    DecodeEncodeSextet((b0 % 4) * 16);
    assert DecodeQuads(s) == DecodeLastQuad(s[0], s[1], s[2], s[3]);
  }

  lemma DecodeTwoBytes(b0: Byte, b1: Byte)
    ensures DecodeQuads(Encode([b0, b1])) == Some([b0, b1])
  {
    var c1 := (b0 % 4) * 16 + b1 / 16;
    assert c1 / 16 == b0 % 4 && c1 % 16 == b1 / 16;
    var s := Encode([b0, b1]);
    assert s == [EncodeSextet(b0 / 4), EncodeSextet(c1), EncodeSextet((b1 % 16) * 4), '='];
    DecodeEncodeSextet(b0 / 4);
    DecodeEncodeSextet(c1);
    DecodeEncodeSextet((b1 % 16) * 4);
    assert DecodeQuads(s) == DecodeLastQuad(s[0], s[1], s[2], s[3]);
  }

  lemma DecodeThreeBytes(b0: Byte, b1: Byte, b2: Byte)
    ensures DecodeQuads(Encode([b0, b1, b2])) == Some([b0, b1, b2])
  {
    TripleRoundTrip(b0, b1, b2);
    var s := Encode([b0, b1, b2]);
    assert s == EncodeTriple(b0, b1, b2) + Encode([]);
    assert DecodeQuads(s) == DecodeLastQuad(s[0], s[1], s[2], s[3]);
  }

  lemma SplitThree(b: seq<Byte>)
    requires |b| > 3
    ensures b == [b[0], b[1], b[2]] + b[3..]
  {
  }

  /** A full group of four alphabet characters in front of more groups. */
  lemma DecodeQuadsCons(t: string, rest: string)
    requires |t| == 4 && forall i | 0 <= i < 4 :: IsBase64Char(t[i])
    requires |rest| % 4 == 0 && |rest| > 0
    requires DecodeQuads(rest).Some?
    ensures DecodeQuads(t + rest) ==
      Some(DecodeTriple(DecodeSextet(t[0]), DecodeSextet(t[1]), DecodeSextet(t[2]), DecodeSextet(t[3])) + DecodeQuads(rest).value)
  {
    var s := t + rest;
    assert s[4..] == rest;
    assert s[0] == t[0] && s[1] == t[1] && s[2] == t[2] && s[3] == t[3];
  }

  lemma DecodeStep(b: seq<Byte>)
    requires |b| > 3
    requires DecodeQuads(Encode(b[3..])) == Some(b[3..])
    ensures DecodeQuads(Encode(b)) == Some(b)
  {
    var t := EncodeTriple(b[0], b[1], b[2]);
    var rest := Encode(b[3..]);
    assert Encode(b) == t + rest;
    TripleRoundTrip(b[0], b[1], b[2]);
    DecodeQuadsCons(t, rest);
    SplitThree(b);
  }

  lemma {:induction false} DecodeQuadsEncode(b: seq<Byte>)
    ensures |Encode(b)| % 4 == 0 && DecodeQuads(Encode(b)) == Some(b)
    decreases |b|
  {
    if |b| == 1 {
      assert b == [b[0]];
      DecodeOneByte(b[0]);
    } else if |b| == 2 {
      assert b == [b[0], b[1]];
      DecodeTwoBytes(b[0], b[1]);
    } else if |b| == 3 {
      assert b == [b[0], b[1], b[2]];
      DecodeThreeBytes(b[0], b[1], b[2]);
    } else if |b| > 3 {
      DecodeQuadsEncode(b[3..]);
      DecodeStep(b);
    }
  }

  /** What ToBase64String writes, FromBase64String reads back unchanged. */
  lemma DecodeEncode(b: seq<Byte>)
    ensures Decode(Encode(b)) == Some(b)
  {
    EncodeAlphabet(b);
    StripNothing(Encode(b));
    DecodeQuadsEncode(b);
  }

  /** Forty-eight bytes encode as sixty-four alphabet characters, no padding. */
  lemma EncodeFortyEight(b: seq<Byte>)
    requires |b| == 48
    ensures |Encode(b)| == 64
    ensures forall i | 0 <= i < 64 :: IsBase64Char(Encode(b)[i])
  {
    EncodeNoPadding(b);
  }
}
