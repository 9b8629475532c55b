// The strict base64url codec of the post-quantum key material (section 5 of RFC 4648, unpadded).
module Base64Url {
  import opened Options
  import opened BitStreams

  function Letter(d: nat): (c: char)
    requires d < 64
    ensures InAlphabet(c) && DigitOf(c) == d
  {
    if d < 26 then ('A' as int + d) as char
    else if d < 52 then ('a' as int + d - 26) as char
    else if d < 62 then ('0' as int + d - 52) as char
    else if d == 62 then '-' else '_'
  }

  const UPPER := "ABCDEFGHIJKLMNOPQRSTUVWXYZ"
  const LOWER := "abcdefghijklmnopqrstuvwxyz"

  /** The letters are those of the alphabet of section 5 of RFC 4648, in its order. */
  lemma LettersAreTheAlphabet(d: nat)
    requires d < 64
    ensures Letter(d) == (UPPER + LOWER + "0123456789-_")[d]
  {
    if d < 26 {
      assert UPPER[d] == ('A' as int + d) as char;
    } else if d < 52 {
      assert LOWER[d - 26] == ('a' as int + d - 26) as char;
    } else {
      assert "0123456789-_"[d - 52] == Letter(d);
    }
  }

  predicate InAlphabet(c: char) {
    'A' <= c <= 'Z' || 'a' <= c <= 'z' || '0' <= c <= '9' || c == '-' || c == '_'
  }

  function DigitOf(c: char): (d: nat)
    requires InAlphabet(c)
    ensures d < 64
  {
    if 'A' <= c <= 'Z' then c as int - 'A' as int
    else if 'a' <= c <= 'z' then c as int - 'a' as int + 26
    else if '0' <= c <= '9' then c as int - '0' as int + 52
    else if c == '-' then 62 else 63
  }

  predicate Base64UrlText(text: string) {
    forall i | 0 <= i < |text| :: InAlphabet(text[i])
  }

  function DigitsOf(text: string): (r: seq<nat>)
    requires Base64UrlText(text)
    ensures |r| == |text|
    ensures forall i | 0 <= i < |r| :: r[i] == DigitOf(text[i])
  {
    if text == [] then [] else [DigitOf(text[0])] + DigitsOf(text[1..])
  }

  function LettersOf(digits: seq<nat>): (r: string)
    requires forall i | 0 <= i < |digits| :: digits[i] < 64
    ensures |r| == |digits| && Base64UrlText(r)
    ensures forall i | 0 <= i < |r| :: r[i] == Letter(digits[i])
  {
    if digits == [] then [] else [Letter(digits[0])] + LettersOf(digits[1..])
  }

  lemma SixBitGroups(bits: Bits)
    ensures forall i | 0 <= i < |Digits(bits, 6)| :: Digits(bits, 6)[i] < 64
  {
    DigitsShape(bits, 6);
    assert Pow2(6) == 64;
    forall i | 0 <= i < |Digits(bits, 6)| ensures Digits(bits, 6)[i] < 64 {
      assert Digits(bits, 6)[i] in Digits(bits, 6);
    }
  }

  /** Buffer.toString("base64url"). */
  function EncodeBase64Url(bytes: seq<Byte>): string {
    SixBitGroups(BitsOfBytes(bytes));
    LettersOf(Digits(BitsOfBytes(bytes), 6))
  }

  /** Buffer.from(text, "base64url"): whole bytes are kept, bits left over are dropped without complaint. */
  function LenientDecode(text: string): seq<Byte>
    requires Base64UrlText(text)
  {
    BytesOfBits(Spread(DigitsOf(text), 6))
  }

  function DecodeBase64Url(text: string): Option<seq<Byte>> {
    if text == "" then None
    else if !Base64UrlText(text) then None
    else
      var bytes := LenientDecode(text);
      if bytes == [] then None
      else if EncodeBase64Url(bytes) != text then None
      else Some(bytes)
  }

  // ---------------------------------------------------------------- the codec

  lemma DigitsOfEncoding(bytes: seq<Byte>)
    ensures DigitsOf(EncodeBase64Url(bytes)) == Digits(BitsOfBytes(bytes), 6)
  {
    SixBitGroups(BitsOfBytes(bytes));
  }

  lemma LenientDecodeInvertsEncode(bytes: seq<Byte>)
    ensures LenientDecode(EncodeBase64Url(bytes)) == bytes
  {
    var bits := BitsOfBytes(bytes);
    DigitsOfEncoding(bytes);
    SpreadOfDigits(bits, 6);
    BytesOfBitsOfBytes(bytes, Zeros(PadLength(|bits|, 6)));
  }

  /** Decoding succeeds with b exactly when b is nonempty and the text is b's encoding. */
  lemma DecodesExactlyEncodings(text: string, bytes: seq<Byte>)
    ensures DecodeBase64Url(text) == Some(bytes) <==> bytes != [] && text == EncodeBase64Url(bytes)
  {
    if bytes != [] && text == EncodeBase64Url(bytes) {
      LenientDecodeInvertsEncode(bytes);
    }
  }

  /** So each byte string has one accepted spelling. */
  lemma OneSpellingPerKey(text: string, other: string)
    requires DecodeBase64Url(text).Some? && DecodeBase64Url(text) == DecodeBase64Url(other)
    ensures text == other
  {
    DecodesExactlyEncodings(text, DecodeBase64Url(text).value);
    DecodesExactlyEncodings(other, DecodeBase64Url(text).value);
  }

  /** The bits a text carries beyond its last whole byte. */
  function TrailingBits(text: string): Bits
    requires Base64UrlText(text)
  {
    SpreadLength(DigitsOf(text), 6);
    var bits := Spread(DigitsOf(text), 6);
    bits[8 * (|bits| / 8)..]
  }

  lemma TextBits(text: string)
    requires Base64UrlText(text)
    ensures Spread(DigitsOf(text), 6) == BitsOfBytes(LenientDecode(text)) + TrailingBits(text)
    ensures 6 * |text| == 8 * |LenientDecode(text)| + |TrailingBits(text)| && |TrailingBits(text)| < 8
  {
    SpreadLength(DigitsOf(text), 6);
    BitsOfBytesOfBits(Spread(DigitsOf(text), 6));
  }

  lemma LettersOfDigits(text: string)
    requires Base64UrlText(text)
    ensures LettersOf(DigitsOf(text)) == text
  {
    forall i | 0 <= i < |text| ensures LettersOf(DigitsOf(text))[i] == text[i] {
      LetterOfDigit(text[i]);
    }
  }

  lemma LetterOfDigit(c: char)
    requires InAlphabet(c)
    ensures Letter(DigitOf(c)) == c
  {
  }

  lemma OneModFour(k: int)
    ensures (4 * k + 1) % 4 == 1
  {
  }

  lemma LessThanADigitIsLeft(letters: nat, bytes: nat, left: nat)
    requires 6 * letters == 8 * bytes + left && left < 8 && letters % 4 != 1
    ensures left < 6
  {
    assert left % 2 == 0;
    assert left < 6 || letters == 4 * (letters - bytes - 1) + 1;
    OneModFour(letters - bytes - 1);
  }

  lemma NoSpareLetter(letters: nat, bytes: nat, left: nat)
    requires 6 * letters == 8 * bytes + left && left < 6
    ensures letters % 4 != 1
  {
  }

  lemma DigitsAreSixBits(text: string)
    requires Base64UrlText(text)
    ensures forall d | d in DigitsOf(text) :: d < Pow2(6)
  {
    assert Pow2(6) == 64;
  }

  lemma ZeroTrailingBitsAreAccepted(text: string)
    requires text != "" && Base64UrlText(text) && |text| % 4 != 1
    requires TrailingBits(text) == Zeros(|TrailingBits(text)|)
    ensures DecodeBase64Url(text).Some?
  {
    TextBits(text);
    LessThanADigitIsLeft(|text|, |LenientDecode(text)|, |TrailingBits(text)|);
    DigitsAreSixBits(text);
    var bits := BitsOfBytes(LenientDecode(text));
    DigitsOfSpread(DigitsOf(text), bits, |TrailingBits(text)|, 6);
    LettersOfDigits(text);
    SixBitGroups(bits);
  }

  lemma SameContinuation(front: Bits, a: Bits, b: Bits)
    requires front + a == front + b
    ensures a == b
  {
    assert a == (front + a)[|front|..] && b == (front + b)[|front|..];
  }

  lemma AcceptedTrailingBitsAreZero(text: string)
    requires DecodeBase64Url(text).Some?
    ensures |text| % 4 != 1 && TrailingBits(text) == Zeros(|TrailingBits(text)|)
  {
    TextBits(text);
    var bits := BitsOfBytes(LenientDecode(text));
    DigitsOfEncoding(LenientDecode(text));
    SpreadOfDigits(bits, 6);
    SameContinuation(bits, TrailingBits(text), Zeros(PadLength(|bits|, 6)));
    NoSpareLetter(|text|, |LenientDecode(text)|, |TrailingBits(text)|);
  }

  /**
   * Which spellings are refused, in terms of the text alone: the empty one, one with a foreign character,
   * one of length 1 modulo 4, and one whose trailing bits are not all zero.
   */
  lemma AcceptedSpellings(text: string)
    ensures DecodeBase64Url(text).Some? <==>
            text != "" && Base64UrlText(text) && |text| % 4 != 1 && TrailingBits(text) == Zeros(|TrailingBits(text)|)
  {
    if DecodeBase64Url(text).Some? {
      AcceptedTrailingBitsAreZero(text);
    } else if text != "" && Base64UrlText(text) && |text| % 4 != 1
              && TrailingBits(text) == Zeros(|TrailingBits(text)|) {
      ZeroTrailingBitsAreAccepted(text);
    }
  }
}
