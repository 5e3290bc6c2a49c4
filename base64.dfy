/**
 * Base 64 encoding with the standard alphabet and `=` padding (section 4 of RFC 4648), the
 * encoding `btoa` applies to a string of Latin-1 characters, together with a strict decoder.
 */
module Base64 {
  import opened Wrappers

  type Byte = b: int | 0 <= b < 256

  /** A 6-bit value, the unit one base 64 character carries. */
  type Sextet = v: int | 0 <= v < 64

  /** The character of the standard alphabet for `v`: A-Z, a-z, 0-9, then '+' and '/'. */
  function SextetChar(v: Sextet): char {
    if v < 26 then ('A' as int + v) as char
    else if v < 52 then ('a' as int + (v - 26)) as char
    else if v < 62 then ('0' as int + (v - 52)) as char
    else if v == 62 then '+'
    else '/'
  }

  /** The value of an alphabet character, or -1 for anything else (including the pad '='). */
  function SextetValue(c: char): (v: int)
    ensures -1 <= v < 64
    ensures v >= 0 ==> SextetChar(v) == c
  {
    if 'A' <= c <= 'Z' then c as int - 'A' as int
    else if 'a' <= c <= 'z' then c as int - 'a' as int + 26
    else if '0' <= c <= '9' then c as int - '0' as int + 52
    else if c == '+' then 62
    else if c == '/' then 63
    else -1
  }

  lemma SextetValueOfChar(v: Sextet)
    ensures SextetValue(SextetChar(v)) == v
    ensures SextetChar(v) != '='
  {
  }

  predicate IsAlphabetChar(c: char) {
    SextetValue(c) >= 0
  }

  /** Three bytes as four characters. */
  function EncodeTriple(b0: Byte, b1: Byte, b2: Byte): string {
    [SextetChar(b0 / 4), SextetChar((b0 % 4) * 16 + b1 / 16), SextetChar((b1 % 16) * 4 + b2 / 64), SextetChar(b2 % 64)]
  }

  /** A trailing pair of bytes: three characters and one pad. */
  function EncodePair(b0: Byte, b1: Byte): string {
    [SextetChar(b0 / 4), SextetChar((b0 % 4) * 16 + b1 / 16), SextetChar((b1 % 16) * 4), '=']
  }

  /** A trailing single byte: two characters and two pads. */
  function EncodeSingle(b0: Byte): string {
    [SextetChar(b0 / 4), SextetChar((b0 % 4) * 16), '=', '=']
  }

  /** `btoa` over the characters whose codes are `bytes`. */
  function Encode(bytes: seq<Byte>): (r: string)
    ensures |r| == 4 * ((|bytes| + 2) / 3)
    decreases |bytes|
  {
    if |bytes| >= 3 then
      EncodeTriple(bytes[0], bytes[1], bytes[2]) + Encode(bytes[3..])
    else if |bytes| == 2 then
      EncodePair(bytes[0], bytes[1])
    else if |bytes| == 1 then
      EncodeSingle(bytes[0])
    else
      ""
  }

  /** How many pads close the encoding of `n` bytes. */
  function Pads(n: nat): nat {
    (3 - n % 3) % 3
  }

  lemma SingleInAlphabet(b0: Byte)
    ensures forall i :: 0 <= i < 2 ==> IsAlphabetChar(EncodeSingle(b0)[i])
  {
    SextetValueOfChar(b0 / 4);
    SextetValueOfChar((b0 % 4) * 16);
  }

  lemma PairInAlphabet(b0: Byte, b1: Byte)
    ensures forall i :: 0 <= i < 3 ==> IsAlphabetChar(EncodePair(b0, b1)[i])
  {
    SextetValueOfChar(b0 / 4);
    SextetValueOfChar((b0 % 4) * 16 + b1 / 16);
    SextetValueOfChar((b1 % 16) * 4);
  }

  lemma TripleInAlphabet(b0: Byte, b1: Byte, b2: Byte)
    ensures forall i :: 0 <= i < 4 ==> IsAlphabetChar(EncodeTriple(b0, b1, b2)[i])
  {
    SextetValueOfChar(b0 / 4);
    SextetValueOfChar((b0 % 4) * 16 + b1 / 16);
    SextetValueOfChar((b1 % 16) * 4 + b2 / 64);
    SextetValueOfChar(b2 % 64);
  }

  /**
   * The encoding is alphabet characters followed by as many pads as the last group of
   * three bytes is short: none, one for a trailing pair, two for a trailing single byte.
   */
  lemma {:induction false} EncodePadding(bytes: seq<Byte>)
    ensures |Encode(bytes)| >= Pads(|bytes|)
    ensures forall i :: 0 <= i < |Encode(bytes)| - Pads(|bytes|) ==> IsAlphabetChar(Encode(bytes)[i])
    ensures forall i :: |Encode(bytes)| - Pads(|bytes|) <= i < |Encode(bytes)| ==> Encode(bytes)[i] == '='
    decreases |bytes|
  {
    if |bytes| >= 3 {
      EncodePadding(bytes[3..]);
      TripleInAlphabet(bytes[0], bytes[1], bytes[2]);
      PadsStep(|bytes|);
      PaddedAppend(EncodeTriple(bytes[0], bytes[1], bytes[2]), Encode(bytes[3..]), Pads(|bytes|));
    } else if |bytes| == 2 {
      PairInAlphabet(bytes[0], bytes[1]);
    } else if |bytes| == 1 {
      SingleInAlphabet(bytes[0]);
    }
  }

  lemma PadsStep(n: nat)
    requires n >= 3
    ensures Pads(n - 3) == Pads(n)
  {
  }

  /** Four alphabet characters in front keep the shape "alphabet characters, then `p` pads". */
  lemma PaddedAppend(q: string, rest: string, p: nat)
    requires |q| == 4 && forall i :: 0 <= i < 4 ==> IsAlphabetChar(q[i])
    requires |rest| >= p
    requires forall i :: 0 <= i < |rest| - p ==> IsAlphabetChar(rest[i])
    requires forall i :: |rest| - p <= i < |rest| ==> rest[i] == '='
    ensures forall i :: 0 <= i < |q + rest| - p ==> IsAlphabetChar((q + rest)[i])
    ensures forall i :: |q + rest| - p <= i < |q + rest| ==> (q + rest)[i] == '='
  {
    forall i | 0 <= i < |q + rest| - p ensures IsAlphabetChar((q + rest)[i]) {
      if i >= 4 {
        assert (q + rest)[i] == rest[i - 4];
      }
    }
    forall i | |q + rest| - p <= i < |q + rest| ensures (q + rest)[i] == '=' {
      assert (q + rest)[i] == rest[i - 4];
    }
  }

  /** Four alphabet characters back to three bytes. */
  function DecodeQuad(s: string): Option<seq<Byte>>
    requires |s| == 4
  {
    var v0, v1, v2, v3 := SextetValue(s[0]), SextetValue(s[1]), SextetValue(s[2]), SextetValue(s[3]);
    if v0 < 0 || v1 < 0 || v2 < 0 || v3 < 0 then None
    else Some([v0 * 4 + v1 / 16, (v1 % 16) * 16 + v2 / 4, (v2 % 4) * 64 + v3])
  }

  /**
   * The last group of four characters, which may end in one or two pads. Bits that the
   * pads leave over must be zero, so that every decodable text is the encoding of its bytes.
   */
  function DecodeLast(s: string): Option<seq<Byte>>
    requires |s| == 4
  {
    var v0, v1, v2 := SextetValue(s[0]), SextetValue(s[1]), SextetValue(s[2]);
    if s[2] == '=' && s[3] == '=' then
      if v0 < 0 || v1 < 0 || v1 % 16 != 0 then None else Some([v0 * 4 + v1 / 16])
    else if s[3] == '=' then
      if v0 < 0 || v1 < 0 || v2 < 0 || v2 % 4 != 0 then None
      else Some([v0 * 4 + v1 / 16, (v1 % 16) * 16 + v2 / 4])
    else
      DecodeQuad(s)
  }

  /** The inverse of `Encode`: `None` for text that is not the padded base 64 form of any bytes. */
  function Decode(s: string): Option<seq<Byte>>
    decreases |s|
  {
    if |s| == 0 then Some([])
    else if |s| < 4 then None
    else if |s| == 4 then DecodeLast(s)
    else
      match DecodeQuad(s[..4])
      case None => None
      case Some(head) =>
        match Decode(s[4..])
        case None => None
        case Some(tail) => Some(head + tail)
  }

  /** Decoding an encoding gives the bytes back. */
  lemma {:induction false} DecodeEncode(bytes: seq<Byte>)
    ensures Decode(Encode(bytes)) == Some(bytes)
    decreases |bytes|
  {
    if |bytes| > 3 {
      var b0, b1, b2 := bytes[0], bytes[1], bytes[2];
      TripleRoundTrip(b0, b1, b2);
      DecodeEncode(bytes[3..]);
      DecodeAppend(EncodeTriple(b0, b1, b2), Encode(bytes[3..]));
      HeadThree(bytes);
    } else if |bytes| == 3 {
      TripleRoundTrip(bytes[0], bytes[1], bytes[2]);
      assert Encode(bytes) == EncodeTriple(bytes[0], bytes[1], bytes[2]);
      assert bytes == [bytes[0], bytes[1], bytes[2]];
    } else if |bytes| == 2 {
      PairRoundTrip(bytes[0], bytes[1]);
      assert bytes == [bytes[0], bytes[1]];
    } else if |bytes| == 1 {
      SingleRoundTrip(bytes[0]);
      assert bytes == [bytes[0]];
    }
  }

  lemma HeadThree<T>(s: seq<T>)
    requires |s| >= 3
    ensures s == [s[0], s[1], s[2]] + s[3..]
  {
  }

  /** A full group in front of a longer text decodes to its three bytes in front of the rest. */
  lemma DecodeAppend(q: string, rest: string)
    requires |q| == 4 && |rest| >= 4 && DecodeQuad(q).Some? && Decode(rest).Some?
    ensures Decode(q + rest) == Some(DecodeQuad(q).value + Decode(rest).value)
  {
    assert (q + rest)[..4] == q;
    assert (q + rest)[4..] == rest;
  }

  lemma PairRoundTrip(b0: Byte, b1: Byte)
    ensures DecodeLast(EncodePair(b0, b1)) == Some([b0, b1])
  {
    var r := EncodePair(b0, b1);
    var v0, v1, v2 := b0 / 4, (b0 % 4) * 16 + b1 / 16, (b1 % 16) * 4;
    SextetValueOfChar(v0);
    SextetValueOfChar(v1);
    SextetValueOfChar(v2);
    assert v1 / 16 == b0 % 4 && v1 % 16 == b1 / 16;
    assert v2 / 4 == b1 % 16 && v2 % 4 == 0;
    assert r[2] != '=' && r[3] == '=';
  }

  lemma SingleRoundTrip(b0: Byte)
    ensures DecodeLast(EncodeSingle(b0)) == Some([b0])
  {
    var v0, v1 := b0 / 4, (b0 % 4) * 16;
    SextetValueOfChar(v0);
    SextetValueOfChar(v1);
    assert v1 / 16 == b0 % 4 && v1 % 16 == 0;
  }

  lemma TripleRoundTrip(b0: Byte, b1: Byte, b2: Byte)
    ensures DecodeQuad(EncodeTriple(b0, b1, b2)) == Some([b0, b1, b2])
    ensures DecodeLast(EncodeTriple(b0, b1, b2)) == Some([b0, b1, b2])
  {
    var v0, v1, v2, v3 := b0 / 4, (b0 % 4) * 16 + b1 / 16, (b1 % 16) * 4 + b2 / 64, b2 % 64;
    SextetValueOfChar(v0);
    SextetValueOfChar(v1);
    SextetValueOfChar(v2);
    SextetValueOfChar(v3);
    TripleArith(b0, b1, b2);
  }

  /** The three bytes come back out of their four sextets. */
  lemma TripleArith(b0: Byte, b1: Byte, b2: Byte)
    ensures var v1, v2 := (b0 % 4) * 16 + b1 / 16, (b1 % 16) * 4 + b2 / 64;
      (b0 / 4) * 4 + v1 / 16 == b0 && (v1 % 16) * 16 + v2 / 4 == b1 && (v2 % 4) * 64 + b2 % 64 == b2
  {
    var v1, v2 := (b0 % 4) * 16 + b1 / 16, (b1 % 16) * 4 + b2 / 64;
    assert v1 / 16 == b0 % 4 && v1 % 16 == b1 / 16;
    assert v2 / 4 == b1 % 16 && v2 % 4 == b2 / 64;
  }

  /** Every text the decoder accepts is the encoding of what it decodes to. */
  lemma {:induction false} EncodeDecode(s: string)
    requires Decode(s).Some?
    ensures Encode(Decode(s).value) == s
    decreases |s|
  {
    if |s| == 4 {
      LastRoundTrip(s);
    } else if |s| > 4 {
      QuadRoundTrip(s[..4]);
      EncodeDecode(s[4..]);
      var head := DecodeQuad(s[..4]).value;
      var tail := Decode(s[4..]).value;
      assert (head + tail)[3..] == tail;
      assert s == s[..4] + s[4..];
    }
  }

  lemma QuadRoundTrip(s: string)
    requires |s| == 4 && DecodeQuad(s).Some?
    ensures var b := DecodeQuad(s).value; |b| == 3 && EncodeTriple(b[0], b[1], b[2]) == s
  {
    var v0, v1, v2, v3 := SextetValue(s[0]), SextetValue(s[1]), SextetValue(s[2]), SextetValue(s[3]);
    var b := DecodeQuad(s).value;
    assert b[0] / 4 == v0 && (b[0] % 4) * 16 + b[1] / 16 == v1;
    assert (b[1] % 16) * 4 + b[2] / 64 == v2 && b[2] % 64 == v3;
  }

  lemma LastRoundTrip(s: string)
    requires |s| == 4 && DecodeLast(s).Some?
    ensures Encode(DecodeLast(s).value) == s
  {
    var b := DecodeLast(s).value;
    var v0, v1, v2 := SextetValue(s[0]), SextetValue(s[1]), SextetValue(s[2]);
    if s[2] == '=' && s[3] == '=' {
      assert b[0] / 4 == v0 && (b[0] % 4) * 16 == v1;
    } else if s[3] == '=' {
      assert b[0] / 4 == v0 && (b[0] % 4) * 16 + b[1] / 16 == v1 && (b[1] % 16) * 4 == v2;
    } else {
      QuadRoundTrip(s);
      assert Encode(b) == EncodeTriple(b[0], b[1], b[2]) + Encode(b[3..]);
    }
  }
}
