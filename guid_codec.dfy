/**
 * The GUID to immutable-anchor codec of the hard-link tool: `normalizeGuid`, `isValidGuid` and
 * `guidToBase64` as the code runs them, beside a reference definition of the 16-byte anchor
 * layout (the mixed-endian layout Windows uses for a GUID's first three fields) and its inverse.
 */
module GuidCodec {
  import opened Wrappers
  import opened Text
  import Base64

  const InvalidGuidMessage := "Invalid GUID format"

  /** What the engine throws when `hexToBytes` reads `.length` of a field that is undefined. */
  const UndefinedFieldMessage := "Cannot read properties of undefined (reading 'length')"

  /** What `btoa` throws for a character above U+00FF. */
  const InvalidCharacterMessage := "InvalidCharacterError"

  /* ---------- normalizeGuid and isValidGuid ---------- */

  /** Trim, strip one pair of outer braces when both are there, lower-case. */
  function NormalizeGuid(input: string): string {
    var t := Trim(input);
    var inner := if |t| >= 2 && t[0] == '{' && t[|t| - 1] == '}' then t[1..|t| - 1] else t;
    ToLower(inner)
  }

  predicate IsHexDigit(c: char) {
    '0' <= c <= '9' || 'a' <= c <= 'f' || 'A' <= c <= 'F'
  }

  predicate IsDashIndex(i: int) {
    i == 8 || i == 13 || i == 18 || i == 23
  }

  /** The regular expression /^[0-9a-fA-F]{8}-([0-9a-fA-F]{4}-){3}[0-9a-fA-F]{12}$/. */
  predicate MatchesGuidPattern(s: string) {
    |s| == 36 && forall i :: 0 <= i < 36 ==> if IsDashIndex(i) then s[i] == '-' else IsHexDigit(s[i])
  }

  /** `isValidGuid`: the pattern is tested on the normalized text. */
  predicate IsValidGuid(input: string) {
    MatchesGuidPattern(NormalizeGuid(input))
  }

  /** A canonical identifier: the 8-4-4-4-12 layout in lower case. */
  predicate IsCanonical(g: string) {
    MatchesGuidPattern(g) && IsLower(g)
  }

  /**
   * The normalized text is the lower-cased middle of the input: everything cut off before it is
   * white space or the one opening brace, everything cut off after it white space or the closing one.
   */
  lemma NormalizeSlice(s: string) returns (a: nat, b: nat)
    ensures a <= b <= |s| && NormalizeGuid(s) == ToLower(s[a..b])
    ensures forall i :: 0 <= i < a ==> IsWhitespace(s[i]) || s[i] == '{'
    ensures forall i :: b <= i < |s| ==> IsWhitespace(s[i]) || s[i] == '}'
  {
    var a0, b0 := TrimIsSlice(s);
    var t := Trim(s);
    if |t| >= 2 && t[0] == '{' && t[|t| - 1] == '}' {
      a, b := a0 + 1, b0 - 1;
      BracedSlice(s, a0, b0);
    } else {
      a, b := a0, b0;
    }
  }

  /** The braced case of `NormalizeSlice`: the braces sit at the ends of the trimmed slice. */
  lemma BracedSlice(s: string, a0: nat, b0: nat)
    requires a0 + 2 <= b0 <= |s| && Trim(s) == s[a0..b0] && s[a0] == '{' && s[b0 - 1] == '}'
    requires forall i :: 0 <= i < a0 ==> IsWhitespace(s[i])
    requires forall i :: b0 <= i < |s| ==> IsWhitespace(s[i])
    ensures NormalizeGuid(s) == ToLower(s[a0 + 1..b0 - 1])
    ensures forall i :: 0 <= i < a0 + 1 ==> IsWhitespace(s[i]) || s[i] == '{'
    ensures forall i :: b0 - 1 <= i < |s| ==> IsWhitespace(s[i]) || s[i] == '}'
  {
    var t := Trim(s);
    assert t[0] == '{' && t[|t| - 1] == '}';
    SliceOfSlice(s, a0, b0, 1, b0 - a0 - 1);
  }

  /** Exactly one brace pair goes: `{{x}}` keeps its inner braces. */
  lemma NormalizeStripsOnePair(g: string)
    requires |g| > 0 && !IsWhitespace(g[0]) && !IsWhitespace(g[|g| - 1])
    ensures NormalizeGuid("{" + g + "}") == ToLower(g)
  {
    TrimUnpadded("{" + g + "}");
    assert ("{" + g + "}")[1..|g| + 1] == g;
  }

  /** Only a pair goes: a lone opening brace stays. */
  lemma NormalizeKeepsOpenBrace(g: string)
    requires |g| > 0 && !IsWhitespace(g[|g| - 1]) && g[|g| - 1] != '}'
    ensures NormalizeGuid("{" + g) == ToLower("{" + g)
  {
    TrimUnpadded("{" + g);
  }

  /** Only a pair goes: a lone closing brace stays. */
  lemma NormalizeKeepsCloseBrace(g: string)
    requires |g| > 0 && !IsWhitespace(g[0]) && g[0] != '{'
    ensures NormalizeGuid(g + "}") == ToLower(g + "}")
  {
    TrimUnpadded(g + "}");
  }

  /** Surrounding white space is dropped before anything else. */
  lemma NormalizeTrims(pad: string, g: string, pad': string)
    requires forall i :: 0 <= i < |pad| ==> IsWhitespace(pad[i])
    requires forall i :: 0 <= i < |pad'| ==> IsWhitespace(pad'[i])
    requires |g| > 0 && !IsWhitespace(g[0]) && !IsWhitespace(g[|g| - 1])
    ensures NormalizeGuid(pad + g + pad') == NormalizeGuid(g)
  {
    var s := pad + g + pad';
    assert s == pad + (g + pad') && (g + pad')[0] == g[0];
    TrimStartPadded(pad, g + pad');
    TrimEndPadded(g, pad');
    assert Trim(s) == g;
    TrimUnpadded(g);
    assert Trim(s) == Trim(g);
  }

  /** A text that passes `isValidGuid` normalizes to a canonical identifier, which normalizing leaves alone. */
  lemma ValidNormalizesToCanonical(x: string)
    requires IsValidGuid(x)
    ensures IsCanonical(NormalizeGuid(x))
    ensures NormalizeGuid(NormalizeGuid(x)) == NormalizeGuid(x)
    ensures forall i :: 0 <= i < 36 ==> IsDashIndex(i) || '0' <= NormalizeGuid(x)[i] <= '9' || 'a' <= NormalizeGuid(x)[i] <= 'f'
  {
    var g := NormalizeGuid(x);
    var a, b := NormalizeSlice(x);
    ToLowerIsLower(x[a..b]);
    assert !IsWhitespace(g[0]) && !IsWhitespace(g[35]);
    TrimUnpadded(g);
  }

  /* ---------- what guidToBase64 does, step by step ---------- */

  function HexDigitValue(c: char): (v: nat)
    requires IsHexDigit(c)
    ensures v < 16
  {
    if '0' <= c <= '9' then c as int - '0' as int
    else if 'a' <= c <= 'f' then c as int - 'a' as int + 10
    else c as int - 'A' as int + 10
  }

  /** How many hex digits `s` starts with. */
  function LeadingHexDigits(s: string): (n: nat)
    ensures n <= |s|
    ensures forall i :: 0 <= i < n ==> IsHexDigit(s[i])
    ensures n < |s| ==> !IsHexDigit(s[n])
    decreases |s|
  {
    if |s| > 0 && IsHexDigit(s[0]) then 1 + LeadingHexDigits(s[1..]) else 0
  }

  /** The value of a run of hex digits, most significant first. */
  function HexValue(digits: string): nat
    requires forall i :: 0 <= i < |digits| ==> IsHexDigit(digits[i])
    decreases |digits|
  {
    if |digits| == 0 then 0 else HexValue(digits[..|digits| - 1]) * 16 + HexDigitValue(digits[|digits| - 1])
  }

  /** One or two hex digits make a byte. */
  lemma ShortHexValue(digits: string)
    requires |digits| <= 2 && forall i :: 0 <= i < |digits| ==> IsHexDigit(digits[i])
    ensures HexValue(digits) < 256
  {
    if |digits| > 0 {
      var init := digits[..|digits| - 1];
      if |init| > 0 {
        assert init[..|init| - 1] == [];
      }
      assert HexValue(init) < 16;
    }
  }

  /** A number as `parseInt` returns it: NaN or an integer. */
  datatype Parsed = NaN | Int(value: nat)

  /**
   * `parseInt(s, 16)`: skip leading white space, read the longest run of hex digits, NaN when
   * there is none. The sign and the "0x" prefix that parseInt also accepts are not modelled
   * (`AcceptedFieldChars` shows neither can reach it).
   */
  function ParseHex(s: string): (p: Parsed)
    ensures |s| <= 2 && p.Int? ==> p.value < 256
  {
    var t := TrimStart(s);
    var n := LeadingHexDigits(t);
    if n == 0 then NaN
    else
      assert n <= 2 ==> HexValue(t[..n]) < 256 by {
        if n <= 2 {
          ShortHexValue(t[..n]);
        }
      }
      Int(HexValue(t[..n]))
  }

  /** `hexToBytes`: `parseInt` of each two-character slice, the last one shorter for an odd length. */
  function HexBytes(hex: string): (r: seq<Parsed>)
    ensures |r| == (|hex| + 1) / 2
    ensures forall k :: 0 <= k < |r| ==> r[k].NaN? || r[k].value < 256
    decreases |hex|
  {
    if |hex| == 0 then []
    else if |hex| == 1 then [ParseHex(hex)]
    else [ParseHex(hex[..2])] + HexBytes(hex[2..])
  }

  /** `String.fromCharCode`: the number converted to a 16-bit code unit, NaN becoming 0. */
  function CharCode(p: Parsed): int {
    match p
    case NaN => 0
    case Int(v) => v % 0x1_0000
  }

  /** The code units of `bin` once every number has been appended as a character. */
  function CodeUnits(all: seq<Parsed>): (units: seq<int>)
    ensures |units| == |all|
  {
    seq(|all|, i requires 0 <= i < |all| => CharCode(all[i]))
  }

  /** `btoa`: base 64 of a Latin-1 string, an error for any character above U+00FF. */
  function Btoa(units: seq<int>): Result<string, string> {
    if forall i :: 0 <= i < |units| ==> 0 <= units[i] < 256 then Success(Base64.Encode(units))
    else Failure(InvalidCharacterMessage)
  }

  /** The numbers `guidToBase64` collects: fields one to three reversed, four and five as they are. */
  function FieldBytes(p1: string, p2: string, p3: string, p4: string, p5: string): seq<Parsed> {
    Reverse(HexBytes(p1)) + Reverse(HexBytes(p2)) + Reverse(HexBytes(p3)) + HexBytes(p4) + HexBytes(p5)
  }

  /**
   * `guidToBase64` as written: normalize, test the normalized text with `isValidGuid` (which
   * normalizes once more), split it at '-', and encode the bytes of the first five fields.
   */
  function GuidAnchor(guidInput: string): Result<string, string> {
    var guid := NormalizeGuid(guidInput);
    if !IsValidGuid(guid) then Failure(InvalidGuidMessage)
    else
      var parts := Split(guid, '-');
      if |parts| < 5 then Failure(UndefinedFieldMessage)
      else Btoa(CodeUnits(FieldBytes(parts[0], parts[1], parts[2], parts[3], parts[4])))
  }

  /** `hex.substring(i, i + 2)`: the end is clamped to the length. */
  function Substring2(hex: string, i: nat): string
    requires i <= |hex|
  {
    hex[i..if i + 2 <= |hex| then i + 2 else |hex|]
  }

  /** One step of `hexToBytes`: the slice at `i` is parsed, and the rest goes on two characters later. */
  lemma HexBytesStep(hex: string, i: nat)
    requires i < |hex|
    ensures HexBytes(hex[i..]) == [ParseHex(Substring2(hex, i))] +
      HexBytes(hex[if i + 2 <= |hex| then i + 2 else |hex|..])
  {
    var t := hex[i..];
    if |t| >= 2 {
      assert t[..2] == Substring2(hex, i) && t[2..] == hex[i + 2..];
    }
  }

  /** `hexToBytes` as the loop in the source runs it. */
  method HexToBytes(hex: string) returns (arr: seq<Parsed>)
    ensures arr == HexBytes(hex)
  {
    arr := [];
    var i := 0;
    while i < |hex|
      invariant i <= |hex| + 1
      invariant arr + HexBytes(hex[if i <= |hex| then i else |hex|..]) == HexBytes(hex)
    {
      HexBytesStep(hex, i);
      var next := if i + 2 <= |hex| then i + 2 else |hex|;
      AppendStep(arr, ParseHex(Substring2(hex, i)), HexBytes(hex[next..]), HexBytes(hex));
      arr := arr + [ParseHex(Substring2(hex, i))];
      i := i + 2;
    }
    assert HexBytes(hex[|hex|..]) == [];
    assert arr + [] == arr;
  }

  /** Moving the next element from the rest onto the part already built keeps the whole. */
  lemma AppendStep<T>(done: seq<T>, x: T, rest: seq<T>, whole: seq<T>)
    requires done + ([x] + rest) == whole
    ensures done + [x] + rest == whole
  {
    assert done + [x] + rest == done + ([x] + rest);
  }

  /** The loop `for (const b of all) bin += String.fromCharCode(b)`. */
  method AppendCharCodes(all: seq<Parsed>) returns (bin: seq<int>)
    ensures bin == CodeUnits(all)
  {
    bin := [];
    var j := 0;
    while j < |all|
      invariant j <= |all|
      invariant bin == CodeUnits(all[..j])
    {
      PrefixStep(all, j);
      CodeUnitsAppend(all[..j], [all[j]]);
      bin := bin + [CharCode(all[j])];
      j := j + 1;
    }
    PrefixAll(all);
  }

  /**
   * `guidToBase64` as the source runs it: the tests, the split, `hexToBytes` on each field, the
   * loop that appends one character per number, and `btoa`.
   */
  method GuidToBase64(guidInput: string) returns (r: Result<string, string>)
    ensures r == GuidAnchor(guidInput)
  {
    var guid := NormalizeGuid(guidInput);
    if !IsValidGuid(guid) {
      return Failure(InvalidGuidMessage);
    }
    var parts := Split(guid, '-');
    if |parts| < 5 {
      return Failure(UndefinedFieldMessage);
    }
    var b1 := HexToBytes(parts[0]);
    var b2 := HexToBytes(parts[1]);
    var b3 := HexToBytes(parts[2]);
    var b4 := HexToBytes(parts[3]);
    var b5 := HexToBytes(parts[4]);
    var all := Reverse(b1) + Reverse(b2) + Reverse(b3) + b4 + b5;
    var bin := AppendCharCodes(all);
    r := Btoa(bin);
  }

  /* ---------- the anchor layout, and its inverse ---------- */

  /** The byte written as the two hex digits at positions `i` and `i + 1`. */
  function PairAt(g: string, i: nat): Base64.Byte
    requires i + 1 < |g| && IsHexDigit(g[i]) && IsHexDigit(g[i + 1])
  {
    HexDigitValue(g[i]) * 16 + HexDigitValue(g[i + 1])
  }

  /**
   * Where each of the 16 anchor bytes is written in the 36-character text: the bytes of the
   * first three fields in reverse order, those of the last two in the order they are written.
   */
  const AnchorPairPositions: seq<nat> := [6, 4, 2, 0, 11, 9, 16, 14, 19, 21, 24, 26, 28, 30, 32, 34]

  /** For each text position, the anchor byte whose hex digits it holds (0 for the dashes). */
  const TextByteIndex: seq<nat> :=
    [3, 3, 2, 2, 1, 1, 0, 0, 0, 5, 5, 4, 4, 0, 7, 7, 6, 6, 0, 8, 8, 9, 9, 0,
     10, 10, 11, 11, 12, 12, 13, 13, 14, 14, 15, 15]

  lemma PositionTables()
    ensures |AnchorPairPositions| == 16 && |TextByteIndex| == 36
    ensures forall k :: 0 <= k < 16 ==>
      (AnchorPairPositions[k] + 1 < 36
       && !IsDashIndex(AnchorPairPositions[k]) && !IsDashIndex(AnchorPairPositions[k] + 1)
       && TextByteIndex[AnchorPairPositions[k]] == k && TextByteIndex[AnchorPairPositions[k] + 1] == k)
    ensures forall i :: 0 <= i < 36 && !IsDashIndex(i) ==>
      (TextByteIndex[i] < 16
       && (AnchorPairPositions[TextByteIndex[i]] == i || AnchorPairPositions[TextByteIndex[i]] + 1 == i))
  {
    PairsIndexed();
    DigitsIndexed();
  }

  /** Each anchor byte's two hex digits lie outside the dashes and are indexed back to that byte. */
  lemma PairsIndexed()
    ensures |AnchorPairPositions| == 16 && |TextByteIndex| == 36
    ensures forall k :: 0 <= k < 16 ==>
      (AnchorPairPositions[k] + 1 < 36
       && !IsDashIndex(AnchorPairPositions[k]) && !IsDashIndex(AnchorPairPositions[k] + 1)
       && TextByteIndex[AnchorPairPositions[k]] == k && TextByteIndex[AnchorPairPositions[k] + 1] == k)
  {
    forall k | 0 <= k < 8
      ensures AnchorPairPositions[k] + 1 < 36
        && !IsDashIndex(AnchorPairPositions[k]) && !IsDashIndex(AnchorPairPositions[k] + 1)
        && TextByteIndex[AnchorPairPositions[k]] == k && TextByteIndex[AnchorPairPositions[k] + 1] == k
    {
    }
    forall k | 8 <= k < 16
      ensures AnchorPairPositions[k] + 1 < 36
        && !IsDashIndex(AnchorPairPositions[k]) && !IsDashIndex(AnchorPairPositions[k] + 1)
        && TextByteIndex[AnchorPairPositions[k]] == k && TextByteIndex[AnchorPairPositions[k] + 1] == k
    {
    }
  }

  /** Each hex digit of the text belongs to the pair of the byte it is indexed to. */
  lemma DigitsIndexed()
    ensures |AnchorPairPositions| == 16 && |TextByteIndex| == 36
    ensures forall i :: 0 <= i < 36 && !IsDashIndex(i) ==>
      (TextByteIndex[i] < 16
       && (AnchorPairPositions[TextByteIndex[i]] == i || AnchorPairPositions[TextByteIndex[i]] + 1 == i))
  {
  }

  /** The 16 bytes of the immutable anchor of an identifier in the 8-4-4-4-12 layout. */
  function AnchorBytes(g: string): (b: seq<Base64.Byte>)
    requires MatchesGuidPattern(g)
    ensures |b| == 16
  {
    PositionTables();
    seq(16, k requires 0 <= k < 16 => PairAt(g, AnchorPairPositions[k]))
  }

  function HexDigitChar(v: nat): (c: char)
    requires v < 16
    ensures IsHexDigit(c) && HexDigitValue(c) == v && !('A' <= c <= 'Z')
  {
    if v < 10 then ('0' as int + v) as char else ('a' as int + (v - 10)) as char
  }

  /** The canonical text of 16 anchor bytes: the inverse of `AnchorBytes`. */
  function FormatGuid(b: seq<Base64.Byte>): (g: string)
    requires |b| == 16
    ensures |g| == 36
  {
    PositionTables();
    seq(36, i requires 0 <= i < 36 =>
      if IsDashIndex(i) then '-'
      else
        var k := TextByteIndex[i];
        if AnchorPairPositions[k] == i then HexDigitChar(b[k] / 16) else HexDigitChar(b[k] % 16))
  }

  lemma FormatGuidIsCanonical(b: seq<Base64.Byte>)
    requires |b| == 16
    ensures IsCanonical(FormatGuid(b))
  {
    PositionTables();
  }

  /** Formatting the bytes and reading them back gives the same bytes. */
  lemma AnchorBytesOfFormat(b: seq<Base64.Byte>)
    requires |b| == 16
    ensures MatchesGuidPattern(FormatGuid(b)) && AnchorBytes(FormatGuid(b)) == b
  {
    PositionTables();
    FormatGuidIsCanonical(b);
    var g := FormatGuid(b);
    forall k | 0 <= k < 16 ensures AnchorBytes(g)[k] == b[k] {
      var i := AnchorPairPositions[k];
      assert g[i] == HexDigitChar(b[k] / 16);
      assert g[i + 1] == HexDigitChar(b[k] % 16);
    }
  }

  /** Reading the bytes of a canonical identifier and formatting them gives the identifier back. */
  lemma FormatOfAnchorBytes(g: string)
    requires IsCanonical(g)
    ensures FormatGuid(AnchorBytes(g)) == g
  {
    PositionTables();
    var b := AnchorBytes(g);
    forall i | 0 <= i < 36 ensures FormatGuid(b)[i] == g[i] {
      FormatAt(g, i);
    }
  }

  /** One position of `FormatOfAnchorBytes`. */
  lemma FormatAt(g: string, i: nat)
    requires IsCanonical(g) && i < 36
    ensures FormatGuid(AnchorBytes(g))[i] == g[i]
  {
    PositionTables();
    if !IsDashIndex(i) {
      var b := AnchorBytes(g);
      var k := TextByteIndex[i];
      var p := AnchorPairPositions[k];
      var hi, lo := HexDigitValue(g[p]), HexDigitValue(g[p + 1]);
      assert b[k] == hi * 16 + lo;
      assert b[k] / 16 == hi && b[k] % 16 == lo;
      HexDigitRoundTrip(g[i]);
    }
  }

  lemma HexDigitRoundTrip(c: char)
    requires IsHexDigit(c) && !('A' <= c <= 'Z')
    ensures HexDigitChar(HexDigitValue(c)) == c
  {
  }

  /** The anchor read back as an identifier: `None` unless it is the padded base 64 of 16 bytes. */
  function AnchorToGuid(anchor: string): Option<string> {
    match Base64.Decode(anchor)
    case Some(b) => if |b| == 16 then Some(FormatGuid(b)) else None
    case None => None
  }

  /** The round trip of the anchor codec: every canonical identifier is recovered from its anchor. */
  lemma AnchorRoundTrip(g: string)
    requires IsCanonical(g)
    ensures AnchorToGuid(Base64.Encode(AnchorBytes(g))) == Some(g)
  {
    Base64.DecodeEncode(AnchorBytes(g));
    FormatOfAnchorBytes(g);
  }

  /** ... and every text that reads back as an identifier is the anchor of that identifier. */
  lemma AnchorToGuidSound(anchor: string)
    requires AnchorToGuid(anchor).Some?
    ensures var g := AnchorToGuid(anchor).value; IsCanonical(g) && Base64.Encode(AnchorBytes(g)) == anchor
  {
    var b := Base64.Decode(anchor).value;
    Base64.EncodeDecode(anchor);
    AnchorBytesOfFormat(b);
    FormatGuidIsCanonical(b);
  }

  /** An anchor is 24 characters: 22 of the base 64 alphabet and two pads. */
  lemma AnchorShape(g: string)
    requires MatchesGuidPattern(g)
    ensures var a := Base64.Encode(AnchorBytes(g));
      |a| == 24 && a[22..] == "==" && forall i :: 0 <= i < 22 ==> Base64.IsAlphabetChar(a[i])
  {
    var a := Base64.Encode(AnchorBytes(g));
    Base64.EncodePadding(AnchorBytes(g));
    assert Base64.Pads(16) == 2;
    assert a[22] == '=' && a[23] == '=';
  }

  /* ---------- guidToBase64 against the layout ---------- */

  /** `parseInt` of two hex digits is the byte they spell. */
  lemma ParsePair(s: string)
    requires |s| == 2 && IsHexDigit(s[0]) && IsHexDigit(s[1])
    ensures ParseHex(s) == Int(PairAt(s, 0))
  {
    assert TrimStart(s) == s;
    assert LeadingHexDigits(s[1..][1..]) == 0;
    assert LeadingHexDigits(s[1..]) == 1;
    assert LeadingHexDigits(s) == 2;
    assert s[..2] == s && s[..1][..0] == [] && s[..1][0] == s[0];
    assert HexValue(s[..1]) == HexDigitValue(s[0]);
    assert HexValue(s) == HexDigitValue(s[0]) * 16 + HexDigitValue(s[1]);
  }

  /** `hexToBytes` of an even run of hex digits: byte k is spelled by digits 2k and 2k + 1. */
  lemma {:induction false} HexBytesOfPairs(hex: string)
    requires |hex| % 2 == 0 && forall i :: 0 <= i < |hex| ==> IsHexDigit(hex[i])
    ensures |HexBytes(hex)| == |hex| / 2
    ensures forall k :: 0 <= k < |hex| / 2 ==> HexBytes(hex)[k] == Int(PairAt(hex, 2 * k))
    decreases |hex|
  {
    if |hex| > 0 {
      var rest := hex[2..];
      var r := HexBytes(hex);
      var head := hex[..2];
      HexBytesOfPairs(rest);
      ParsePair(head);
      assert r == [ParseHex(head)] + HexBytes(rest);
      assert head[0] == hex[0] && head[1] == hex[1];
      assert r[0] == Int(PairAt(hex, 0));
      forall k | 1 <= k < |hex| / 2 ensures r[k] == Int(PairAt(hex, 2 * k)) {
        var j := 2 * (k - 1);
        assert r[k] == HexBytes(rest)[k - 1];
        assert rest[j] == hex[j + 2] && rest[j + 1] == hex[j + 3];
        assert j + 2 == 2 * k;
      }
    }
  }

  /** A pattern match is its five fields joined by dashes. */
  lemma PatternAsFields(g: string)
    requires MatchesGuidPattern(g)
    ensures g == g[..8] + "-" + g[9..13] + "-" + g[14..18] + "-" + g[19..23] + "-" + g[24..]
  {
    assert g[8] == '-' && g[13] == '-' && g[18] == '-' && g[23] == '-';
  }

  /** No field of a pattern match holds a dash. */
  lemma PatternFieldsDashFree(g: string)
    requires MatchesGuidPattern(g)
    ensures '-' !in g[..8] && '-' !in g[9..13] && '-' !in g[14..18] && '-' !in g[19..23] && '-' !in g[24..]
  {
    forall i | 0 <= i < 36 && !IsDashIndex(i) ensures g[i] != '-' {
      assert IsHexDigit(g[i]);
    }
  }

  /**
   * The fields `split('-')` finds in a pattern match with extra text before and after it:
   * the extra text sticks to the first and the last field.
   */
  lemma SplitFields(g: string, pre: string, post: string)
    requires MatchesGuidPattern(g) && '-' !in pre && '-' !in post
    ensures Split(pre + g + post, '-') == [pre + g[..8], g[9..13], g[14..18], g[19..23], g[24..] + post]
  {
    PatternFieldsDashFree(g);
    PatternAsFields(g);
    RegroupFive(pre, g[..8], g[9..13], g[14..18], g[19..23], g[24..], post, '-');
    SplitFive(pre + g[..8], g[9..13], g[14..18], g[19..23], g[24..] + post, '-');
  }

  /** `split('-')` of a pattern match gives its five fields. */
  lemma SplitPattern(g: string)
    requires MatchesGuidPattern(g)
    ensures Split(g, '-') == [g[..8], g[9..13], g[14..18], g[19..23], g[24..]]
  {
    PatternFieldsDashFree(g);
    PatternAsFields(g);
    SplitFive(g[..8], g[9..13], g[14..18], g[19..23], g[24..], '-');
  }

  /**
   * What `guidToBase64` splits: once the test on the normalized text passes, that text is a
   * pattern match with only white space and braces around it, and nothing around it exactly
   * when the original input passes `isValidGuid` too.
   */
  lemma NormalizedShape(x: string) returns (pre: string, post: string)
    requires IsValidGuid(NormalizeGuid(x))
    ensures var guid := NormalizeGuid(x); guid == pre + NormalizeGuid(guid) + post
    ensures forall i :: 0 <= i < |pre| ==> IsWhitespace(pre[i]) || pre[i] == '{'
    ensures forall i :: 0 <= i < |post| ==> IsWhitespace(post[i]) || post[i] == '}'
    ensures '-' !in pre && '-' !in post
    ensures IsValidGuid(x) <==> pre == post == []
  {
    pre, post := RenormalizeCut(x);
    if IsValidGuid(x) {
      ValidNormalizesToCanonical(x);
    }
  }

  /** Normalizing the normalized text again can only cut white space and braces off its ends. */
  lemma RenormalizeCut(x: string) returns (pre: string, post: string)
    ensures var guid := NormalizeGuid(x); guid == pre + NormalizeGuid(guid) + post
    ensures forall i :: 0 <= i < |pre| ==> IsWhitespace(pre[i]) || pre[i] == '{'
    ensures forall i :: 0 <= i < |post| ==> IsWhitespace(post[i]) || post[i] == '}'
    ensures '-' !in pre && '-' !in post
  {
    var guid := NormalizeGuid(x);
    var a, b := RenormalizeSlice(x);
    pre, post := CutEnds(guid, a, b);
  }

  /** The ends cut off at `a` and `b`, with what the cut leaves in between. */
  lemma CutEnds(s: string, a: nat, b: nat) returns (pre: string, post: string)
    requires a <= b <= |s|
    requires forall i :: 0 <= i < a ==> IsWhitespace(s[i]) || s[i] == '{'
    requires forall i :: b <= i < |s| ==> IsWhitespace(s[i]) || s[i] == '}'
    ensures s == pre + s[a..b] + post
    ensures forall i :: 0 <= i < |pre| ==> IsWhitespace(pre[i]) || pre[i] == '{'
    ensures forall i :: 0 <= i < |post| ==> IsWhitespace(post[i]) || post[i] == '}'
    ensures '-' !in pre && '-' !in post
  {
    pre, post := s[..a], s[b..];
    ThreeSlices(s, a, b);
    assert forall i :: 0 <= i < |post| ==> post[i] == s[b + i];
  }

  /** Normalizing twice cuts white space and braces off the ends of the first result. */
  lemma RenormalizeSlice(x: string) returns (a: nat, b: nat)
    ensures a <= b <= |NormalizeGuid(x)| && NormalizeGuid(NormalizeGuid(x)) == NormalizeGuid(x)[a..b]
    ensures forall i :: 0 <= i < a ==> IsWhitespace(NormalizeGuid(x)[i]) || NormalizeGuid(x)[i] == '{'
    ensures forall i :: b <= i < |NormalizeGuid(x)| ==> IsWhitespace(NormalizeGuid(x)[i]) || NormalizeGuid(x)[i] == '}'
  {
    NormalizeIsLower(x);
    a, b := NormalizeLowerSlice(NormalizeGuid(x));
  }

  /** On lower-case text normalizing only cuts: `NormalizeSlice` without the case change. */
  lemma NormalizeLowerSlice(s: string) returns (a: nat, b: nat)
    requires IsLower(s)
    ensures a <= b <= |s| && NormalizeGuid(s) == s[a..b]
    ensures forall i :: 0 <= i < a ==> IsWhitespace(s[i]) || s[i] == '{'
    ensures forall i :: b <= i < |s| ==> IsWhitespace(s[i]) || s[i] == '}'
  {
    a, b := NormalizeSlice(s);
    ToLowerIsLower(s[a..b]);
  }

  /** The normalized text is lower case. */
  lemma NormalizeIsLower(x: string)
    ensures IsLower(NormalizeGuid(x))
  {
    var t := Trim(x);
    var inner := if |t| >= 2 && t[0] == '{' && t[|t| - 1] == '}' then t[1..|t| - 1] else t;
    ToLowerIsLower(inner);
  }

  /** The 16 code units `guidToBase64` collects from a pattern match are the anchor bytes. */
  lemma FieldUnits(g: string)
    requires MatchesGuidPattern(g)
    ensures CodeUnits(FieldBytes(g[..8], g[9..13], g[14..18], g[19..23], g[24..])) == AnchorBytes(g)
  {
    var f1, f2, f3, f4, f5 := g[..8], g[9..13], g[14..18], g[19..23], g[24..];
    assert f1 == g[0..8] && f5 == g[24..36];
    PatternHexRuns(g);
    ReversedFieldCodes(g, 0, 8, f1);
    ReversedFieldCodes(g, 9, 13, f2);
    ReversedFieldCodes(g, 14, 18, f3);
    ForwardFieldCodes(g, 19, 23, f4);
    ForwardFieldCodes(g, 24, 36, f5);
    JoinedUnits(Reverse(HexBytes(f1)), Reverse(HexBytes(f2)), Reverse(HexBytes(f3)), HexBytes(f4), HexBytes(f5));
    AnchorBytesListed(g);
  }

  /** The code units of the five fields' numbers joined, written out one by one. */
  lemma JoinedUnits(r1: seq<Parsed>, r2: seq<Parsed>, r3: seq<Parsed>, r4: seq<Parsed>, r5: seq<Parsed>)
    requires |r1| == 4 && |r2| == 2 && |r3| == 2 && |r4| == 2 && |r5| == 6
    ensures var u1, u2, u3, u4, u5 := CodeUnits(r1), CodeUnits(r2), CodeUnits(r3), CodeUnits(r4), CodeUnits(r5);
      CodeUnits(r1 + r2 + r3 + r4 + r5) == [u1[0], u1[1], u1[2], u1[3], u2[0], u2[1], u3[0], u3[1],
        u4[0], u4[1], u5[0], u5[1], u5[2], u5[3], u5[4], u5[5]]
  {
    UnitsOfThree(r1, r2, r3);
    UnitsOfTwoSix(r4, r5);
    assert r1 + r2 + r3 + r4 + r5 == (r1 + r2 + r3) + (r4 + r5);
    UnitsOfEightEight(r1 + r2 + r3, r4 + r5);
  }

  /** The five runs of hex digits between the dashes of a pattern match. */
  lemma PatternHexRuns(g: string)
    requires MatchesGuidPattern(g)
    ensures forall i :: 0 <= i < 8 ==> IsHexDigit(g[i])
    ensures forall i :: 9 <= i < 13 ==> IsHexDigit(g[i])
    ensures forall i :: 14 <= i < 18 ==> IsHexDigit(g[i])
    ensures forall i :: 19 <= i < 23 ==> IsHexDigit(g[i])
    ensures forall i :: 24 <= i < 36 ==> IsHexDigit(g[i])
  {
  }

  /** Within a field of hex digits, every byte read in the field is the byte read at the same place in the text. */
  lemma PairsInField(g: string, a: nat, b: nat, f: string)
    requires a <= b <= |g| && f == g[a..b] && forall i :: a <= i < b ==> IsHexDigit(g[i])
    ensures |f| == b - a && forall i :: 0 <= i < |f| ==> IsHexDigit(f[i])
    ensures forall i :: 0 <= i && i + 1 < |f| ==> PairAt(f, i) == PairAt(g, a + i)
  {
  }

  /** The anchor bytes written out one by one. */
  lemma AnchorBytesListed(g: string)
    requires MatchesGuidPattern(g)
    ensures AnchorBytes(g) == [PairAt(g, 6), PairAt(g, 4), PairAt(g, 2), PairAt(g, 0), PairAt(g, 11), PairAt(g, 9),
      PairAt(g, 16), PairAt(g, 14), PairAt(g, 19), PairAt(g, 21), PairAt(g, 24), PairAt(g, 26), PairAt(g, 28),
      PairAt(g, 30), PairAt(g, 32), PairAt(g, 34)]
  {
    Listed16(AnchorBytes(g));
  }

  /** The code units of a run of `n` pairs of hex digits, in the order written. */
  lemma PairCodes(f: string, n: nat)
    requires |f| == 2 * n && forall i :: 0 <= i < |f| ==> IsHexDigit(f[i])
    ensures |CodeUnits(HexBytes(f))| == n
    ensures forall k :: 0 <= k < n ==> CodeUnits(HexBytes(f))[k] == PairAt(f, 2 * k)
  {
    HexBytesOfPairs(f);
    var h := HexBytes(f);
    forall k | 0 <= k < n ensures CodeUnits(h)[k] == PairAt(f, 2 * k) {
      CodeOfByte(PairAt(f, 2 * k));
    }
  }

  /** The code units of a run of `n` pairs of hex digits, last byte first. */
  lemma ReversedPairCodes(f: string, n: nat)
    requires |f| == 2 * n && forall i :: 0 <= i < |f| ==> IsHexDigit(f[i])
    ensures |CodeUnits(Reverse(HexBytes(f)))| == n
    ensures forall k :: 0 <= k < n ==> CodeUnits(Reverse(HexBytes(f)))[k] == PairAt(f, 2 * (n - 1 - k))
  {
    PairCodes(f, n);
    CodeUnitsReverse(HexBytes(f));
  }

  /** Reversing the numbers reverses their code units. */
  lemma CodeUnitsReverse(h: seq<Parsed>)
    ensures |CodeUnits(Reverse(h))| == |h|
    ensures forall k :: 0 <= k < |h| ==> CodeUnits(Reverse(h))[k] == CodeUnits(h)[|h| - 1 - k]
  {
  }

  /** The code units of a field of four or eight hex digits starting at `a` in `g`, last byte first. */
  lemma ReversedFieldCodes(g: string, a: nat, b: nat, f: string)
    requires (b == a + 4 || b == a + 8) && b <= |g| && f == g[a..b]
    requires forall i :: a <= i < b ==> IsHexDigit(g[i])
    ensures |f| == 4 ==> CodeUnits(Reverse(HexBytes(f))) == [PairAt(g, a + 2), PairAt(g, a)]
    ensures |f| == 8 ==> CodeUnits(Reverse(HexBytes(f))) == [PairAt(g, a + 6), PairAt(g, a + 4), PairAt(g, a + 2), PairAt(g, a)]
  {
    PairsInField(g, a, b, f);
    var u := CodeUnits(Reverse(HexBytes(f)));
    if b == a + 4 {
      ReversedPairCodes(f, 2);
      Listed2(u);
    } else {
      ReversedPairCodes(f, 4);
      Listed4(u);
    }
  }

  /** The code units of a field of four or twelve hex digits starting at `a` in `g`, in the order written. */
  lemma ForwardFieldCodes(g: string, a: nat, b: nat, f: string)
    requires (b == a + 4 || b == a + 12) && b <= |g| && f == g[a..b]
    requires forall i :: a <= i < b ==> IsHexDigit(g[i])
    ensures |f| == 4 ==> CodeUnits(HexBytes(f)) == [PairAt(g, a), PairAt(g, a + 2)]
    ensures |f| == 12 ==> CodeUnits(HexBytes(f)) == [PairAt(g, a), PairAt(g, a + 2), PairAt(g, a + 4), PairAt(g, a + 6),
      PairAt(g, a + 8), PairAt(g, a + 10)]
  {
    PairsInField(g, a, b, f);
    var u := CodeUnits(HexBytes(f));
    if b == a + 4 {
      PairCodes(f, 2);
      Listed2(u);
    } else {
      PairCodes(f, 6);
      Listed6(u);
    }
  }

  /** The code units of joined runs, written out one by one. */
  lemma UnitsOfThree(r1: seq<Parsed>, r2: seq<Parsed>, r3: seq<Parsed>)
    requires |r1| == 4 && |r2| == 2 && |r3| == 2
    ensures var u1, u2, u3 := CodeUnits(r1), CodeUnits(r2), CodeUnits(r3);
      CodeUnits(r1 + r2 + r3) == [u1[0], u1[1], u1[2], u1[3], u2[0], u2[1], u3[0], u3[1]]
  {
    CodeUnitsAppend(r1, r2);
    CodeUnitsAppend(r1 + r2, r3);
    JoinFourTwoTwo(CodeUnits(r1), CodeUnits(r2), CodeUnits(r3));
  }

  lemma UnitsOfTwoSix(r1: seq<Parsed>, r2: seq<Parsed>)
    requires |r1| == 2 && |r2| == 6
    ensures var u1, u2 := CodeUnits(r1), CodeUnits(r2);
      CodeUnits(r1 + r2) == [u1[0], u1[1], u2[0], u2[1], u2[2], u2[3], u2[4], u2[5]]
  {
    CodeUnitsAppend(r1, r2);
    JoinTwoSix(CodeUnits(r1), CodeUnits(r2));
  }

  lemma UnitsOfEightEight(r1: seq<Parsed>, r2: seq<Parsed>)
    requires |r1| == 8 && |r2| == 8
    ensures var u1, u2 := CodeUnits(r1), CodeUnits(r2);
      CodeUnits(r1 + r2) == [u1[0], u1[1], u1[2], u1[3], u1[4], u1[5], u1[6], u1[7],
        u2[0], u2[1], u2[2], u2[3], u2[4], u2[5], u2[6], u2[7]]
  {
    CodeUnitsAppend(r1, r2);
    JoinEightEight(CodeUnits(r1), CodeUnits(r2));
  }

  /** A byte is its own code unit. */
  lemma CodeOfByte(v: Base64.Byte)
    ensures CharCode(Int(v)) == v
  {
  }

  lemma CodeUnitsAppend(x: seq<Parsed>, y: seq<Parsed>)
    ensures CodeUnits(x + y) == CodeUnits(x) + CodeUnits(y)
  {
  }

  /* ---------- what guidToBase64 accepts and returns ---------- */

  /** Every number is NaN or fits in a byte. */
  predicate ByteSized(xs: seq<Parsed>) {
    forall k :: 0 <= k < |xs| ==> xs[k].NaN? || xs[k].value < 256
  }

  lemma ByteSizedAppend(xs: seq<Parsed>, ys: seq<Parsed>)
    requires ByteSized(xs) && ByteSized(ys)
    ensures ByteSized(xs + ys)
  {
    forall k | 0 <= k < |xs + ys| ensures (xs + ys)[k].NaN? || (xs + ys)[k].value < 256 {
      if k >= |xs| {
        assert (xs + ys)[k] == ys[k - |xs|];
      }
    }
  }

  /** The code units of numbers that are NaN or fit in a byte are all Latin-1, so `btoa` takes them. */
  lemma ByteSizedUnits(xs: seq<Parsed>)
    requires ByteSized(xs)
    ensures forall i :: 0 <= i < |CodeUnits(xs)| ==> 0 <= CodeUnits(xs)[i] < 256
  {
    forall i | 0 <= i < |xs| ensures 0 <= CodeUnits(xs)[i] < 256 {
      if xs[i].Int? {
        CodeOfByte(xs[i].value);
      }
    }
  }

  /** Every number `hexToBytes` yields fits in a byte, NaN included once it is a code unit. */
  lemma FieldBytesAreBytes(p1: string, p2: string, p3: string, p4: string, p5: string)
    ensures forall i :: 0 <= i < |CodeUnits(FieldBytes(p1, p2, p3, p4, p5))| ==>
      0 <= CodeUnits(FieldBytes(p1, p2, p3, p4, p5))[i] < 256
  {
    var r1, r2, r3 := Reverse(HexBytes(p1)), Reverse(HexBytes(p2)), Reverse(HexBytes(p3));
    var h4, h5 := HexBytes(p4), HexBytes(p5);
    assert ByteSized(r1) && ByteSized(r2) && ByteSized(r3) && ByteSized(h4) && ByteSized(h5);
    ByteSizedAppend(r1, r2);
    ByteSizedAppend(r1 + r2, r3);
    ByteSizedAppend(r1 + r2 + r3, h4);
    ByteSizedAppend(r1 + r2 + r3 + h4, h5);
    ByteSizedUnits(FieldBytes(p1, p2, p3, p4, p5));
  }

  /** The input passes `isValidGuid`: the anchor is the base 64 of the 16 layout bytes of the normalized text. */
  lemma GuidAnchorOfValid(x: string)
    requires IsValidGuid(x)
    ensures GuidAnchor(x) == Success(Base64.Encode(AnchorBytes(NormalizeGuid(x))))
  {
    var g := NormalizeGuid(x);
    ValidNormalizesToCanonical(x);
    assert IsValidGuid(g);
    SplitPattern(g);
    var parts := Split(g, '-');
    FieldUnits(g);
    var units := CodeUnits(FieldBytes(parts[0], parts[1], parts[2], parts[3], parts[4]));
    assert units == AnchorBytes(g);
    assert Btoa(units) == Success(Base64.Encode(AnchorBytes(g)));
  }

  /**
   * Once the test on the normalized text passes, `guidToBase64` returns the base 64 of some
   * numbers: 16 of them, plus one for every two characters, rounded up, of white space and
   * braces before the identifier and as many for those after it.
   */
  lemma AcceptedUnits(x: string) returns (pre: string, post: string, units: seq<Base64.Byte>)
    requires IsValidGuid(NormalizeGuid(x))
    ensures GuidAnchor(x) == Success(Base64.Encode(units))
    ensures |units| == 16 + (|pre| + 1) / 2 + (|post| + 1) / 2
    ensures IsValidGuid(x) <==> pre == post == []
  {
    var g := NormalizeGuid(NormalizeGuid(x));
    pre, post := NormalizedShape(x);
    SplitFields(g, pre, post);
    var p1, p5 := pre + g[..8], g[24..] + post;
    FieldBytesAreBytes(p1, g[9..13], g[14..18], g[19..23], p5);
    units := CodeUnits(FieldBytes(p1, g[9..13], g[14..18], g[19..23], p5));
    SurroundedLength(pre, g, post);
  }

  /** How many numbers `guidToBase64` collects when extra text sticks to the first and the last field. */
  lemma SurroundedLength(pre: string, g: string, post: string)
    requires |g| == 36
    ensures |FieldBytes(pre + g[..8], g[9..13], g[14..18], g[19..23], g[24..] + post)|
      == 16 + (|pre| + 1) / 2 + (|post| + 1) / 2
  {
    assert |pre + g[..8]| == |pre| + 8 && |g[24..] + post| == |post| + 12;
  }

  /**
   * `guidToBase64` succeeds exactly when its second `isValidGuid` test, on the normalized text,
   * passes; when it fails it fails with the "Invalid GUID format" error, never a later one.
   */
  lemma GuidAnchorAccepts(x: string)
    ensures GuidAnchor(x).Success? <==> IsValidGuid(NormalizeGuid(x))
    ensures GuidAnchor(x).Failure? ==> GuidAnchor(x).error == InvalidGuidMessage
  {
    if IsValidGuid(NormalizeGuid(x)) {
      var pre, post, units := AcceptedUnits(x);
    }
  }

  /** Every input `isValidGuid` accepts is also accepted by `guidToBase64`. */
  lemma ValidIsAccepted(x: string)
    requires IsValidGuid(x)
    ensures GuidAnchor(x).Success?
  {
    ValidNormalizesToCanonical(x);
    GuidAnchorAccepts(x);
  }

  /**
   * An input that only the second test accepts (a doubly braced identifier, or one with white
   * space inside its braces) still gets an anchor, but not one of 16 bytes: it reads back as
   * no identifier at all.
   */
  lemma AcceptedButNotValid(x: string)
    requires IsValidGuid(NormalizeGuid(x)) && !IsValidGuid(x)
    ensures GuidAnchor(x).Success?
    ensures Base64.Decode(GuidAnchor(x).value).Some? && |Base64.Decode(GuidAnchor(x).value).value| > 16
    ensures AnchorToGuid(GuidAnchor(x).value) == None
  {
    var pre, post, units := AcceptedUnits(x);
    Base64.DecodeEncode(units);
  }

  /* ---------- worked examples ---------- */

  /** A canonical identifier is left alone by normalizing, so `isValidGuid` accepts it. */
  lemma CanonicalIsNormal(g: string)
    requires IsCanonical(g)
    ensures NormalizeGuid(g) == g && IsValidGuid(g)
  {
    assert IsHexDigit(g[0]) && IsHexDigit(g[35]);
    TrimUnpadded(g);
    ToLowerIsLower(g);
  }

  /** The anchor of the canonical text of 16 bytes is the base 64 of those bytes. */
  lemma GuidAnchorOfFormat(b: seq<Base64.Byte>)
    requires |b| == 16
    ensures GuidAnchor(FormatGuid(b)) == Success(Base64.Encode(b))
  {
    FormatGuidIsCanonical(b);
    AnchorBytesOfFormat(b);
    CanonicalIsNormal(FormatGuid(b));
    GuidAnchorOfValid(FormatGuid(b));
  }

  /** Case, surrounding white space and one pair of braces do not change the anchor of a valid input. */
  lemma GuidAnchorIgnoresDecoration(x: string)
    requires IsValidGuid(x)
    ensures IsValidGuid(NormalizeGuid(x)) && GuidAnchor(x) == GuidAnchor(NormalizeGuid(x))
  {
    ValidNormalizesToCanonical(x);
    CanonicalIsNormal(NormalizeGuid(x));
    GuidAnchorOfValid(x);
    GuidAnchorOfValid(NormalizeGuid(x));
  }

  /** A canonical identifier in two pairs of braces is accepted, but its anchor is not 16 bytes. */
  lemma DoubleBraced(g: string)
    requires IsCanonical(g)
    ensures var x := "{{" + g + "}}"; IsValidGuid(NormalizeGuid(x)) && !IsValidGuid(x)
    ensures GuidAnchor("{{" + g + "}}").Success? && AnchorToGuid(GuidAnchor("{{" + g + "}}").value) == None
  {
    var x := "{{" + g + "}}";
    assert IsHexDigit(g[0]) && IsHexDigit(g[35]);
    BracedNormal(g);
    BracedNormal("{" + g + "}");
    BracedTwice(g);
    CanonicalIsNormal(g);
    NormalizedOnceMore(x);
  }

  /** Doubly braced text is a braced text in braces. */
  lemma BracedTwice(g: string)
    ensures "{{" + g + "}}" == "{" + ("{" + g + "}") + "}"
  {
  }

  /**
   * Text that is valid only after it is normalized once more than `isValidGuid` does is accepted
   * by the second test, refused by the first, and anchors to no identifier.
   */
  lemma NormalizedOnceMore(x: string)
    requires IsValidGuid(NormalizeGuid(x)) && |NormalizeGuid(x)| != 36
    ensures !IsValidGuid(x)
    ensures GuidAnchor(x).Success? && AnchorToGuid(GuidAnchor(x).value) == None
  {
    AcceptedButNotValid(x);
  }

  /** Normalizing a braced lower-case text without surrounding white space removes just the braces. */
  lemma BracedNormal(g: string)
    requires |g| > 0 && !IsWhitespace(g[0]) && !IsWhitespace(g[|g| - 1]) && IsLower(g)
    ensures NormalizeGuid("{" + g + "}") == g
    ensures IsLower("{" + g + "}")
  {
    NormalizeStripsOnePair(g);
    ToLowerIsLower(g);
  }

  /* ---------- worked examples ---------- */

  /** The identifier the on-premises lookup returns for every user. */
  const PlaceholderGuid := "11111111-2222-3333-4444-555555555555"

  /** The placeholder is a canonical identifier. */
  lemma PlaceholderCanonical()
    ensures IsCanonical(PlaceholderGuid)
  {
    var g := PlaceholderGuid;
    forall i | 0 <= i < 36
      ensures (if IsDashIndex(i) then g[i] == '-' else IsHexDigit(g[i])) && !('A' <= g[i] <= 'Z')
    {
    }
  }

  /** The anchor bytes of the placeholder: each of its pairs of digits is one byte. */
  lemma PlaceholderBytes()
    ensures IsCanonical(PlaceholderGuid) && AnchorBytes(PlaceholderGuid) == PlaceholderAnchorBytes
  {
    PlaceholderFrontBytes();
    PlaceholderBackBytes();
    SameHalves(AnchorBytes(PlaceholderGuid), PlaceholderAnchorBytes, 8);
  }

  /** The first eight anchor bytes of the placeholder: its first three fields. */
  lemma PlaceholderFrontBytes()
    ensures IsCanonical(PlaceholderGuid) && AnchorBytes(PlaceholderGuid)[..8] == PlaceholderAnchorBytes[..8]
  {
    PlaceholderCanonical();
    AnchorBytesListed(PlaceholderGuid);
  }

  /** The last eight anchor bytes of the placeholder: its last two fields. */
  lemma PlaceholderBackBytes()
    ensures IsCanonical(PlaceholderGuid) && AnchorBytes(PlaceholderGuid)[8..] == PlaceholderAnchorBytes[8..]
  {
    PlaceholderCanonical();
    AnchorBytesListed(PlaceholderGuid);
  }

  /** The anchor of the placeholder identifier, with its first three fields byte-reversed. */
  lemma PlaceholderAnchor()
    ensures GuidAnchor(PlaceholderGuid) == Success("ERERESIiMzNERFVVVVVVVQ==")
  {
    PlaceholderBytes();
    CanonicalIsNormal(PlaceholderGuid);
    GuidAnchorOfValid(PlaceholderGuid);
    PlaceholderEncoding();
  }

  const PlaceholderAnchorBytes: seq<Base64.Byte> :=
    [0x11, 0x11, 0x11, 0x11, 0x22, 0x22, 0x33, 0x33, 0x44, 0x44, 0x55, 0x55, 0x55, 0x55, 0x55, 0x55]

  lemma PlaceholderEncoding()
    ensures Base64.Encode(PlaceholderAnchorBytes) == "ERERESIiMzNERFVVVVVVVQ=="
  {
    var t5: seq<Base64.Byte> := [0x55];
    var t4 := [0x55, 0x55, 0x55] + t5;
    var t3 := [0x44, 0x55, 0x55] + t4;
    var t2 := [0x33, 0x33, 0x44] + t3;
    var t1 := [0x11, 0x22, 0x22] + t2;
    var t0 := [0x11, 0x11, 0x11] + t1;
    PlaceholderGroups();
    EncodeGroup(0x55, 0x55, 0x55, t5, "VVVV");
    EncodeGroup(0x44, 0x55, 0x55, t4, "RFVV");
    EncodeGroup(0x33, 0x33, 0x44, t3, "MzNE");
    EncodeGroup(0x11, 0x22, 0x22, t2, "ESIi");
    EncodeGroup(0x11, 0x11, 0x11, t1, "ERER");
    assert PlaceholderAnchorBytes == t0;
    PlaceholderAnchorText();
  }

  /** The four characters of each group of three placeholder bytes, and of the last byte alone. */
  lemma PlaceholderGroups()
    ensures Base64.EncodeTriple(0x11, 0x11, 0x11) == "ERER" && Base64.EncodeTriple(0x11, 0x22, 0x22) == "ESIi"
    ensures Base64.EncodeTriple(0x33, 0x33, 0x44) == "MzNE" && Base64.EncodeTriple(0x44, 0x55, 0x55) == "RFVV"
    ensures Base64.EncodeTriple(0x55, 0x55, 0x55) == "VVVV" && Base64.Encode([0x55]) == "VQ=="
  {
  }

  /** The placeholder's anchor, group by group. */
  lemma PlaceholderAnchorText()
    ensures "ERER" + ("ESIi" + ("MzNE" + ("RFVV" + ("VVVV" + "VQ==")))) == "ERERESIiMzNERFVVVVVVVQ=="
  {
  }

  /** Encoding a group of three bytes ahead of more bytes puts that group's four characters in front. */
  lemma EncodeGroup(b0: Base64.Byte, b1: Base64.Byte, b2: Base64.Byte, rest: seq<Base64.Byte>, q: string)
    requires Base64.EncodeTriple(b0, b1, b2) == q
    ensures Base64.Encode([b0, b1, b2] + rest) == q + Base64.Encode(rest)
  {
    assert ([b0, b1, b2] + rest)[3..] == rest;
  }

  /**
   * The same identifier doubly braced, `{{11111111-2222-3333-4444-555555555555}}`, passes the
   * second test and gets 18 bytes in base 64 that read back as no identifier.
   */
  lemma DoubleBracedPlaceholder()
    ensures var a := GuidAnchor("{{" + PlaceholderGuid + "}}");
      a.Success? && AnchorToGuid(a.value) == None
  {
    PlaceholderCanonical();
    DoubleBraced(PlaceholderGuid);
  }
}
