/** Base64 as defined in section 4 of RFC 4648: the standard 64-character
    alphabet and `=` padding, which is what Node's
    `Buffer.toString("base64")` produces. `Decode` is strict (canonical
    in the sense of section 3.5: padding only at the end and pad bits
    zero), so encoding and decoding are mutually inverse. */
module Base64 {
  import opened Results
  import opened Bytes

  /** Table 1 of RFC 4648: the character for a 6-bit value. */
  function Char(v: nat): (c: char)
    requires v < 64
    ensures c != Pad
  {
    if v < 26 then ('A' as int + v) as char
    else if v < 52 then ('a' as int + (v - 26)) as char
    else if v < 62 then ('0' as int + (v - 52)) as char
    else if v == 62 then '+'
    else '/'
  }

  /** The 6-bit value a character stands for, or None outside the alphabet. */
  function Value(c: char): (r: Option<nat>)
    ensures r.Some? ==> r.value < 64 && Char(r.value) == c
  {
    if 'A' <= c <= 'Z' then Some(c as int - 'A' as int)
    else if 'a' <= c <= 'z' then Some(c as int - 'a' as int + 26)
    else if '0' <= c <= '9' then Some(c as int - '0' as int + 52)
    else if c == '+' then Some(62)
    else if c == '/' then Some(63)
    else None
  }

  lemma ValueOfChar(v: nat)
    requires v < 64
    ensures Value(Char(v)) == Some(v)
  {
  }

  const Pad: char := '='

  /** Three octets as four characters. */
  function EncodeBlock(b0: byte, b1: byte, b2: byte): string
  {
    [Char(b0 / 4), Char((b0 % 4) * 16 + b1 / 16), Char((b1 % 16) * 4 + b2 / 64), Char(b2 % 64)]
  }

  /** The padded base64 text of `b`: every full group of three octets
      becomes four characters, and a final group of one or two octets
      becomes two or three characters followed by `==` or `=`. */
  function Encode(b: seq<byte>): (s: string)
    ensures |s| == 4 * ((|b| + 2) / 3)
  {
    if |b| == 0 then ""
    else if |b| == 1 then [Char(b[0] / 4), Char((b[0] % 4) * 16), Pad, Pad]
    else if |b| == 2 then [Char(b[0] / 4), Char((b[0] % 4) * 16 + b[1] / 16), Char((b[1] % 16) * 4), Pad]
    else EncodeBlock(b[0], b[1], b[2]) + Encode(b[3..])
  }

  /** Encoding works three octets at a time from the front. */
  lemma EncodeGroups(head: seq<byte>, tail: seq<byte>)
    requires |head| == 3
    ensures Encode(head + tail) == EncodeBlock(head[0], head[1], head[2]) + Encode(tail)
  {
    assert (head + tail)[3..] == tail;
  }

  /** Four alphabet characters as three octets. */
  function DecodeBlock(s: string): (r: Option<seq<byte>>)
    requires |s| == 4
    ensures r.Some? ==> |r.value| == 3
  {
    match (Value(s[0]), Value(s[1]), Value(s[2]), Value(s[3]))
    case (Some(v0), Some(v1), Some(v2), Some(v3)) =>
      Some([v0 * 4 + v1 / 16, (v1 % 16) * 16 + v2 / 4, (v2 % 4) * 64 + v3])
    case _ => None
  }

  /** The last four characters, which may end in one or two pad
      characters; the bits the padding leaves over must be zero. */
  function DecodeFinal(s: string): (r: Option<seq<byte>>)
    requires |s| == 4
    ensures r.Some? ==> 1 <= |r.value| <= 3
  {
    if s[2] == Pad && s[3] == Pad then
      match (Value(s[0]), Value(s[1]))
      case (Some(v0), Some(v1)) =>
        if v1 % 16 == 0 then Some([v0 * 4 + v1 / 16]) else None
      case _ => None
    else if s[3] == Pad then
      match (Value(s[0]), Value(s[1]), Value(s[2]))
      case (Some(v0), Some(v1), Some(v2)) =>
        if v2 % 4 == 0 then Some([v0 * 4 + v1 / 16, (v1 % 16) * 16 + v2 / 4]) else None
      case _ => None
    else DecodeBlock(s)
  }

  /** The octets whose base64 text is `s`, or None if `s` is not the
      canonical encoding of anything. */
  function Decode(s: string): Option<seq<byte>>
    decreases |s|
  {
    if |s| == 0 then Some([])
    else if |s| < 4 then None
    else if |s| == 4 then DecodeFinal(s)
    else match DecodeBlock(s[..4])
      case None => None
      case Some(head) =>
        match Decode(s[4..])
        case None => None
        case Some(tail) => Some(head + tail)
  }

  /** `x` is `q * d + r` exactly when `q` and `r` are its quotient and
      remainder by `d`, for the divisors base64 uses. */
  lemma QuotRem(x: nat, q: nat, r: nat, d: nat)
    requires d == 4 || d == 16 || d == 64
    requires r < d && x == q * d + r
    ensures x / d == q && x % d == r
  {
  }

  /** The six-bit groups of three octets put back together give the octets. */
  lemma SextetsOfBytes(b0: byte, b1: byte, b2: byte)
    ensures var v1 := (b0 % 4) * 16 + b1 / 16;
            var v2 := (b1 % 16) * 4 + b2 / 64;
            && (b0 / 4) * 4 + v1 / 16 == b0
            && (v1 % 16) * 16 + v2 / 4 == b1
            && (v2 % 4) * 64 + b2 % 64 == b2
  {
    var v1 := (b0 % 4) * 16 + b1 / 16;
    var v2 := (b1 % 16) * 4 + b2 / 64;
    QuotRem(v1, b0 % 4, b1 / 16, 16);
    QuotRem(v2, b1 % 16, b2 / 64, 4);
  }

  /** The octets of four six-bit groups split back into the groups. */
  lemma BytesOfSextets(v0: nat, v1: nat, v2: nat, v3: nat)
    requires v0 < 64 && v1 < 64 && v2 < 64 && v3 < 64
    ensures var b0 := v0 * 4 + v1 / 16;
            var b1 := (v1 % 16) * 16 + v2 / 4;
            var b2 := (v2 % 4) * 64 + v3;
            && b0 < 256 && b1 < 256 && b2 < 256
            && b0 / 4 == v0 && (b0 % 4) * 16 + b1 / 16 == v1
            && (b1 % 16) * 4 + b2 / 64 == v2 && b2 % 64 == v3
  {
    var b0 := v0 * 4 + v1 / 16;
    var b1 := (v1 % 16) * 16 + v2 / 4;
    var b2 := (v2 % 4) * 64 + v3;
    QuotRem(b0, v0, v1 / 16, 4);
    QuotRem(b1, v1 % 16, v2 / 4, 16);
    QuotRem(b2, v2 % 4, v3, 64);
    QuotRem(v1, v1 / 16, v1 % 16, 16);
    QuotRem(v2, v2 / 4, v2 % 4, 4);
  }

  lemma DecodeEncodeBlock(b0: byte, b1: byte, b2: byte)
    ensures DecodeBlock(EncodeBlock(b0, b1, b2)) == Some([b0, b1, b2])
  {
    ValueOfChar(b0 / 4);
    ValueOfChar((b0 % 4) * 16 + b1 / 16);
    ValueOfChar((b1 % 16) * 4 + b2 / 64);
    ValueOfChar(b2 % 64);
    SextetsOfBytes(b0, b1, b2);
  }

  lemma DecodeEncodeOne(b0: byte)
    ensures Decode(Encode([b0])) == Some([b0])
  {
    ValueOfChar(b0 / 4);
    ValueOfChar((b0 % 4) * 16);
    SextetsOfBytes(b0, 0, 0);
  }

  lemma DecodeEncodeTwo(b0: byte, b1: byte)
    ensures Decode(Encode([b0, b1])) == Some([b0, b1])
  {
    var s := Encode([b0, b1]);
    var v0, v1, v2 := b0 / 4, (b0 % 4) * 16 + b1 / 16, (b1 % 16) * 4;
    ValueOfChar(v0);
    ValueOfChar(v1);
    ValueOfChar(v2);
    SextetsOfBytes(b0, b1, 0);
    QuotRem(v2, b1 % 16, 0, 4);
    assert s[2] != Pad && s[3] == Pad;
    assert DecodeFinal(s) == Some([b0, b1]);
  }

  /** Decoding inverts encoding. */
  lemma {:induction false} DecodeEncode(b: seq<byte>)
    ensures Decode(Encode(b)) == Some(b)
  {
    if |b| == 1 {
      DecodeEncodeOne(b[0]);
      assert b == [b[0]];
    } else if |b| == 2 {
      DecodeEncodeTwo(b[0], b[1]);
      assert b == [b[0], b[1]];
    } else if |b| == 3 {
      DecodeEncodeBlock(b[0], b[1], b[2]);
      assert Encode(b) == EncodeBlock(b[0], b[1], b[2]);
      assert b == [b[0], b[1], b[2]];
    } else if |b| > 3 {
      DecodeEncode(b[3..]);
      DecodeEncodeLonger(b);
    }
  }

  lemma DecodeEncodeLonger(b: seq<byte>)
    requires |b| > 3
    requires Decode(Encode(b[3..])) == Some(b[3..])
    ensures Decode(Encode(b)) == Some(b)
  {
    var head, tail := EncodeBlock(b[0], b[1], b[2]), Encode(b[3..]);
    var s := head + tail;
    assert Encode(b) == s;
    DecodeEncodeBlock(b[0], b[1], b[2]);
    assert s[..4] == head && s[4..] == tail;
    DecodeAfterBlock(s, [b[0], b[1], b[2]], b[3..]);
    FirstThree(b);
  }

  lemma FirstThree(b: seq<byte>)
    requires |b| >= 3
    ensures [b[0], b[1], b[2]] + b[3..] == b
  {
    assert b == b[..3] + b[3..];
  }

  /** Decoding a long text is decoding its first block, then the rest. */
  lemma DecodeAfterBlock(s: string, head: seq<byte>, tail: seq<byte>)
    requires |s| > 4
    requires DecodeBlock(s[..4]) == Some(head) && Decode(s[4..]) == Some(tail)
    ensures Decode(s) == Some(head + tail)
  {
  }

  lemma EncodeDecodeBlock(s: string)
    requires |s| == 4 && DecodeBlock(s).Some?
    ensures var b := DecodeBlock(s).value; EncodeBlock(b[0], b[1], b[2]) == s
  {
    var v0, v1, v2, v3 := Value(s[0]).value, Value(s[1]).value, Value(s[2]).value, Value(s[3]).value;
    BytesOfSextets(v0, v1, v2, v3);
    var b := DecodeBlock(s).value;
    assert b == [v0 * 4 + v1 / 16, (v1 % 16) * 16 + v2 / 4, (v2 % 4) * 64 + v3];
    assert Char(b[0] / 4) == s[0] && Char((b[0] % 4) * 16 + b[1] / 16) == s[1];
    assert Char((b[1] % 16) * 4 + b[2] / 64) == s[2] && Char(b[2] % 64) == s[3];
  }

  /** Encoding inverts decoding: only canonical text decodes. */
  lemma {:induction false} EncodeDecode(s: string)
    requires Decode(s).Some?
    ensures Encode(Decode(s).value) == s
    decreases |s|
  {
    if |s| == 4 {
      EncodeDecodeFinal(s);
    } else if |s| > 4 {
      EncodeDecode(s[4..]);
      EncodeDecodeLonger(s);
    }
  }

  /** The last group round-trips, whatever its padding. */
  lemma EncodeDecodeFinal(s: string)
    requires |s| == 4 && DecodeFinal(s).Some?
    ensures Encode(DecodeFinal(s).value) == s
  {
    if s[2] == Pad && s[3] == Pad {
      EncodeDecodeTwoPads(s);
    } else if s[3] == Pad {
      EncodeDecodeOnePad(s);
    } else {
      EncodeDecodeBlock(s);
    }
  }

  lemma EncodeDecodeTwoPads(s: string)
    requires |s| == 4 && s[2] == Pad && s[3] == Pad && DecodeFinal(s).Some?
    ensures Encode(DecodeFinal(s).value) == s
  {
    var v0, v1 := Value(s[0]).value, Value(s[1]).value;
    BytesOfSextets(v0, v1, 0, 0);
    var b := DecodeFinal(s).value;
    assert b == [v0 * 4 + v1 / 16];
    assert Char(b[0] / 4) == s[0] && Char((b[0] % 4) * 16) == s[1];
  }

  lemma EncodeDecodeOnePad(s: string)
    requires |s| == 4 && s[2] != Pad && s[3] == Pad && DecodeFinal(s).Some?
    ensures Encode(DecodeFinal(s).value) == s
  {
    var v0, v1, v2 := Value(s[0]).value, Value(s[1]).value, Value(s[2]).value;
    BytesOfSextets(v0, v1, v2, 0);
    var b := DecodeFinal(s).value;
    var b0, b1 := v0 * 4 + v1 / 16, (v1 % 16) * 16 + v2 / 4;
    assert b == [b0, b1];
    assert v2 % 4 == 0;
    assert (b1 % 16) * 4 == v2 by {
      QuotRem(b1, v1 % 16, v2 / 4, 16);
      QuotRem(v2, v2 / 4, 0, 4);
    }
    assert Char(b0 / 4) == s[0];
    assert Char((b0 % 4) * 16 + b1 / 16) == s[1];
    assert Char((b1 % 16) * 4) == s[2];
  }

  lemma EncodeDecodeLonger(s: string)
    requires |s| > 4 && Decode(s).Some?
    requires Decode(s[4..]).Some? && Encode(Decode(s[4..]).value) == s[4..]
    ensures Encode(Decode(s).value) == s
  {
    EncodeDecodeBlock(s[..4]);
    var head := DecodeBlock(s[..4]).value;
    var tail := Decode(s[4..]).value;
    var b := Decode(s).value;
    assert b == head + tail;
    assert |tail| >= 1 by {
      assert |Encode(tail)| == |s| - 4;
    }
    assert b[3..] == tail;
    assert b[0] == head[0] && b[1] == head[1] && b[2] == head[2];
    assert Encode(b) == EncodeBlock(head[0], head[1], head[2]) + Encode(tail);
    assert s == s[..4] + s[4..];
  }
}
