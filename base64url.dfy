/**
 * Base64 with the URL and filename safe alphabet and no padding (section 5 of
 * RFC 4648), the `base64.RawURLEncoding.EncodeToString` the PKCE code uses.
 * `Decode` is the reference inverse the encoding is checked against.
 */
module Base64Url {
  import opened Wrappers
  import opened Octets

  /** The character of a 6-bit value: A-Z, a-z, 0-9, then '-' and '_'. */
  function Char(v: int): (c: char)
    requires 0 <= v < 64
    ensures IsAlphabet(c)
  {
    if v < 26 then ('A' as int + v) as char
    else if v < 52 then ('a' as int + v - 26) as char
    else if v < 62 then ('0' as int + v - 52) as char
    else if v == 62 then '-'
    else '_'
  }

  /** The characters of the URL-safe alphabet. */
  predicate IsAlphabet(c: char) {
    'A' <= c <= 'Z' || 'a' <= c <= 'z' || '0' <= c <= '9' || c == '-' || c == '_'
  }

  /** The 6-bit value of an alphabet character. */
  function Value(c: char): (v: int)
    requires IsAlphabet(c)
    ensures 0 <= v < 64 && Char(v) == c
  {
    if 'A' <= c <= 'Z' then c as int - 'A' as int
    else if 'a' <= c <= 'z' then c as int - 'a' as int + 26
    else if '0' <= c <= '9' then c as int - '0' as int + 52
    else if c == '-' then 62
    else 63
  }

  lemma ValueOfChar(v: int)
    requires 0 <= v < 64
    ensures Value(Char(v)) == v
  {
  }

  /** The four characters of three bytes: each character carries six of their 24 bits, high bits first. */
  function EncodeGroup(b0: Byte, b1: Byte, b2: Byte): (g: string)
    ensures |g| == 4 && IsAlphabet(g[0]) && IsAlphabet(g[1]) && IsAlphabet(g[2]) && IsAlphabet(g[3])
  {
    [Char(b0 / 4), Char(b0 % 4 * 16 + b1 / 16), Char(b1 % 16 * 4 + b2 / 64), Char(b2 % 64)]
  }

  /** The three bytes of four characters. */
  function DecodeGroup(c0: char, c1: char, c2: char, c3: char): (b: seq<Byte>)
    requires IsAlphabet(c0) && IsAlphabet(c1) && IsAlphabet(c2) && IsAlphabet(c3)
    ensures |b| == 3
  {
    [Value(c0) * 4 + Value(c1) / 16, Value(c1) % 16 * 16 + Value(c2) / 4, Value(c2) % 4 * 64 + Value(c3)]
  }

  /** Encoding without padding: every three bytes become four characters, and a final one or two bytes become two or three. */
  function Encode(b: seq<Byte>): (s: string)
    decreases |b|
  {
    if |b| == 0 then ""
    else if |b| == 1 then [Char(b[0] / 4), Char(b[0] % 4 * 16)]
    else if |b| == 2 then [Char(b[0] / 4), Char(b[0] % 4 * 16 + b[1] / 16), Char(b[1] % 16 * 4)]
    else EncodeGroup(b[0], b[1], b[2]) + Encode(b[3..])
  }

  /** Decoding of unpadded text; a length of one more than a multiple of four, or a character outside the alphabet, does not decode. */
  function Decode(s: string): (r: Option<seq<Byte>>)
    decreases |s|
  {
    if |s| == 0 then Some([])
    else if |s| == 1 || !IsAlphabet(s[0]) || !IsAlphabet(s[1]) then None
    else if |s| == 2 then Some([Value(s[0]) * 4 + Value(s[1]) / 16])
    else if !IsAlphabet(s[2]) then None
    else if |s| == 3 then
      Some([Value(s[0]) * 4 + Value(s[1]) / 16, Value(s[1]) % 16 * 16 + Value(s[2]) / 4])
    else if !IsAlphabet(s[3]) then None
    else
      match Decode(s[4..])
      case None => None
      case Some(rest) => Some(DecodeGroup(s[0], s[1], s[2], s[3]) + rest)
  }

  /** The encoded length is the number of bytes times four thirds, rounded up. */
  lemma {:induction false} EncodeLength(b: seq<Byte>)
    ensures |Encode(b)| == (4 * |b| + 2) / 3
    decreases |b|
  {
    if |b| >= 3 {
      EncodeLength(b[3..]);
    }
  }

  /** Every encoded character is in the URL-safe alphabet. */
  lemma {:induction false} EncodeAlphabet(b: seq<Byte>)
    ensures forall i :: 0 <= i < |Encode(b)| ==> IsAlphabet(Encode(b)[i])
    decreases |b|
  {
    if |b| >= 3 {
      EncodeAlphabet(b[3..]);
    }
  }

  /** The arithmetic of a full group: each byte is reassembled from the bits its characters carry. */
  lemma GroupArithmetic(b0: Byte, b1: Byte, b2: Byte)
    ensures Value(Char(b0 / 4)) * 4 + Value(Char(b0 % 4 * 16 + b1 / 16)) / 16 == b0
    ensures Value(Char(b0 % 4 * 16 + b1 / 16)) % 16 * 16 + Value(Char(b1 % 16 * 4 + b2 / 64)) / 4 == b1
    ensures Value(Char(b1 % 16 * 4 + b2 / 64)) % 4 * 64 + Value(Char(b2 % 64)) == b2
  {
    ValueOfChar(b0 / 4);
    ValueOfChar(b0 % 4 * 16 + b1 / 16);
    ValueOfChar(b1 % 16 * 4 + b2 / 64);
    ValueOfChar(b2 % 64);
  }

  /** The three bytes of a full group come back from its four characters. */
  lemma GroupRoundTrip(b0: Byte, b1: Byte, b2: Byte)
    ensures var g := EncodeGroup(b0, b1, b2); DecodeGroup(g[0], g[1], g[2], g[3]) == [b0, b1, b2]
  {
    var g := EncodeGroup(b0, b1, b2);
    var d := DecodeGroup(g[0], g[1], g[2], g[3]);
    assert d[0] == b0 && d[1] == b1 && d[2] == b2 by {
      GroupArithmetic(b0, b1, b2);
    }
  }

  /** A final one or two bytes come back from their two or three characters. */
  lemma TailRoundTrip(b0: Byte, b1: Byte)
    ensures Value(Char(b0 / 4)) * 4 + Value(Char(b0 % 4 * 16)) / 16 == b0
    ensures Value(Char(b0 / 4)) * 4 + Value(Char(b0 % 4 * 16 + b1 / 16)) / 16 == b0
    ensures Value(Char(b0 % 4 * 16 + b1 / 16)) % 16 * 16 + Value(Char(b1 % 16 * 4)) / 4 == b1
  {
    ValueOfChar(b0 / 4);
    ValueOfChar(b0 % 4 * 16);
    ValueOfChar(b0 % 4 * 16 + b1 / 16);
    ValueOfChar(b1 % 16 * 4);
  }

  lemma RoundTripOne(b0: Byte)
    ensures Decode(Encode([b0])) == Some([b0])
  {
    var s := Encode([b0]);
    assert s == [Char(b0 / 4), Char(b0 % 4 * 16)];
    TailRoundTrip(b0, 0);
  }

  lemma RoundTripTwo(b0: Byte, b1: Byte)
    ensures Decode(Encode([b0, b1])) == Some([b0, b1])
  {
    var s := Encode([b0, b1]);
    assert s == [Char(b0 / 4), Char(b0 % 4 * 16 + b1 / 16), Char(b1 % 16 * 4)];
    TailRoundTrip(b0, b1);
  }

  /** Decoding a full group of four characters in front of more text. */
  lemma DecodeFront(g: string, t: string)
    requires |g| == 4 && IsAlphabet(g[0]) && IsAlphabet(g[1]) && IsAlphabet(g[2]) && IsAlphabet(g[3])
    ensures Decode(g + t) == match Decode(t)
                             case None => None
                             case Some(rest) => Some(DecodeGroup(g[0], g[1], g[2], g[3]) + rest)
  {
    var s := g + t;
    assert s[0] == g[0] && s[1] == g[1] && s[2] == g[2] && s[3] == g[3];
    assert s[4..] == t;
  }

  /** Decoding the encoding of a full group in front of a tail gives the group back in front of the tail's decoding. */
  lemma {:induction false} RoundTripGroup(b: seq<Byte>)
    requires |b| >= 3
    ensures Decode(Encode(b)) == match Decode(Encode(b[3..]))
                                 case None => None
                                 case Some(rest) => Some(b[..3] + rest)
  {
    var g := EncodeGroup(b[0], b[1], b[2]);
    var t := Encode(b[3..]);
    assert Encode(b) == g + t;
    assert Decode(g + t) == match Decode(t)
                            case None => None
                            case Some(rest) => Some(DecodeGroup(g[0], g[1], g[2], g[3]) + rest) by {
      DecodeFront(g, t);
    }
    assert DecodeGroup(g[0], g[1], g[2], g[3]) == b[..3] by {
      GroupRoundTrip(b[0], b[1], b[2]);
      assert b[..3] == [b[0], b[1], b[2]];
    }
  }

  /** Decoding undoes the encoding. */
  lemma {:induction false} RoundTrip(b: seq<Byte>)
    ensures Decode(Encode(b)) == Some(b)
    decreases |b|
  {
    if |b| == 1 {
      assert b == [b[0]];
      RoundTripOne(b[0]);
    } else if |b| == 2 {
      assert b == [b[0], b[1]];
      RoundTripTwo(b[0], b[1]);
    } else if |b| >= 3 {
      RoundTrip(b[3..]);
      RoundTripGroup(b);
      assert b[..3] + b[3..] == b;
    }
  }
}
