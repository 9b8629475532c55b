// Content references of the storage layer: base32 through a wrapping 32-bit accumulator, the reference
// derived from a keyed digest, and the check every reference must pass before it becomes a path.
module StorageReferences {
  import opened BitStreams

  const REFERENCE_PREFIX := "bciqa"
  const BASE32_ALPHABET := "abcdefghijklmnopqrstuvwxyz234567"

  // ---------------------------------------------------------------- base32

  /** The letter of `word & 31`. */
  function LetterOf(word: nat): char {
    assert Pow2(5) == 32;
    BASE32_ALPHABET[LowBits(word, 5)]
  }

  function Letters(digits: seq<nat>): (r: string)
    ensures |r| == |digits| && forall i | 0 <= i < |r| :: r[i] == LetterOf(digits[i])
  {
    if digits == [] then [] else [LetterOf(digits[0])] + Letters(digits[1..])
  }

  /** The letters of the five-bit groups of a bit stream, the last group completed with zero bits. */
  function GroupsToLetters(bits: Bits): string {
    Letters(Digits(bits, 5))
  }

  /** Unpadded lower-case base32, section 6 of RFC 4648. */
  function Base32(bytes: seq<Byte>): string {
    GroupsToLetters(BitsOfBytes(bytes))
  }

  lemma GroupsToLettersUnfold(bits: Bits)
    requires |bits| >= 5
    ensures GroupsToLetters(bits) == [LetterOf(NatOfBits(bits[..5]))] + GroupsToLetters(bits[5..])
  {
    DigitsUnfold(bits, 5);
    assert ([NatOfBits(bits[..5])] + Digits(bits[5..], 5))[1..] == Digits(bits[5..], 5);
  }

  /**
   * The encoder as written. `value` is the unsigned reading of the accumulator: each left shift drops what
   * leaves the 32-bit word, and the stale high bits it keeps never reach the output.
   */
  method Base32Encode(buffer: seq<Byte>) returns (output: string)
    ensures output == Base32(buffer)
  {
    var bits, value: nat := 0, 0;
    output := "";
    StartsWithAllBits(buffer);
    for i := 0 to |buffer|
      invariant bits < 5
      invariant output + GroupsToLetters(BitsOfNat(value, bits) + BitsOfBytes(buffer[i..])) == Base32(buffer)
    {
      NextByte(buffer, i, value, bits);
      // the shifted word has eight zero low bits, so "|" is addition
      value := LowBits(ShiftLeft(value, 8), 32) + buffer[i];
      bits := bits + 8;
      output, bits := EmitGroups(output, value, bits, BitsOfBytes(buffer[i + 1..]));
    }
    EndsWithFewBits(buffer, value, bits);
    if bits > 0 {
      EmitLast(value, bits);
      output := output + [LetterOf(LowBits(ShiftLeft(value, 5 - bits), 32))];
    }
  }

  /** The inner loop: a letter for every whole group of the bits at hand; `rest` are the bits still to come. */
  method EmitGroups(output: string, value: nat, bits: nat, ghost rest: Bits) returns (longer: string, left: nat)
    ensures left < 5
    ensures longer + GroupsToLetters(BitsOfNat(value, left) + rest) ==
            output + GroupsToLetters(BitsOfNat(value, bits) + rest)
  {
    longer, left := output, bits;
    while left >= 5
      invariant longer + GroupsToLetters(BitsOfNat(value, left) + rest) ==
                output + GroupsToLetters(BitsOfNat(value, bits) + rest)
    {
      EmitGroup(longer, value, left, rest);
      longer := longer + [LetterOf(ShiftRight(value, left - 5))];
      left := left - 5;
    }
  }

  lemma EndsWithFewBits(buffer: seq<Byte>, value: nat, bits: nat)
    ensures BitsOfNat(value, bits) + BitsOfBytes(buffer[|buffer|..]) == BitsOfNat(value, bits)
    ensures GroupsToLetters(BitsOfNat(value, 0)) == ""
  {
  }

  lemma StartsWithAllBits(buffer: seq<Byte>)
    ensures "" + GroupsToLetters(BitsOfNat(0, 0) + BitsOfBytes(buffer[0..])) == Base32(buffer)
  {
    assert buffer[0..] == buffer;
    assert BitsOfNat(0, 0) + BitsOfBytes(buffer) == BitsOfBytes(buffer);
  }

  /** The low 32 bits of a word shifted by eight are the low 24 bits of the word, shifted by eight. */
  lemma ShiftedWord(value: nat)
    ensures LowBits(ShiftLeft(value, 8), 32) == ShiftLeft(LowBits(value, 24), 8)
  {
    LowBitsOfShifted(value, 24, 8);
  }

  lemma AppendBits(value: nat, bits: nat, byte: Byte)
    requires bits < 5
    ensures BitsOfNat(LowBits(ShiftLeft(value, 8), 32) + byte, bits + 8) == BitsOfNat(value, bits) + BitsOfNat(byte, 8)
  {
    ShiftedWord(value);
    assert Pow2(8) == 256;
    BitsOfNatFilled(LowBits(value, 24), bits, byte, 8);
    BitsOfNatTruncated(value, bits, 24);
  }

  lemma BitsAhead(value: nat, bits: nat, bytes: seq<Byte>)
    requires bits < 5 && bytes != []
    ensures BitsOfNat(LowBits(ShiftLeft(value, 8), 32) + bytes[0], bits + 8) + BitsOfBytes(bytes[1..]) ==
            BitsOfNat(value, bits) + BitsOfBytes(bytes)
  {
    AppendBits(value, bits, bytes[0]);
    Associative(BitsOfNat(value, bits), BitsOfNat(bytes[0], 8), BitsOfBytes(bytes[1..]));
  }

  lemma NextByte(buffer: seq<Byte>, i: nat, value: nat, bits: nat)
    requires i < |buffer| && bits < 5
    ensures BitsOfNat(value, bits) + BitsOfBytes(buffer[i..]) ==
            BitsOfNat(LowBits(ShiftLeft(value, 8), 32) + buffer[i], bits + 8) + BitsOfBytes(buffer[i + 1..])
  {
    BitsAhead(value, bits, buffer[i..]);
    assert buffer[i..][1..] == buffer[i + 1..];
  }

  lemma Associative(a: Bits, b: Bits, c: Bits)
    ensures a + b + c == a + (b + c)
  {
  }

  lemma {:induction false} LowBitsOfShifted(v: nat, n: nat, k: nat)
    ensures LowBits(ShiftLeft(v, k), n + k) == ShiftLeft(LowBits(v, n), k)
  {
    if k > 0 { LowBitsOfShifted(v, n, k - 1); }
  }

  /** Cutting a word to five bits or more does not change its letter. */
  lemma LetterOfLowBits(word: nat, k: nat)
    requires k >= 5
    ensures LetterOf(LowBits(word, k)) == LetterOf(word)
  {
    BitsOfNatTruncated(word, 5, k);
    NatOfLowBits(word, 5);
    NatOfLowBits(LowBits(word, k), 5);
  }

  lemma EmitGroup(output: string, value: nat, bits: nat, rest: Bits)
    requires 5 <= bits
    ensures output + [LetterOf(ShiftRight(value, bits - 5))] + GroupsToLetters(BitsOfNat(value, bits - 5) + rest) ==
            output + GroupsToLetters(BitsOfNat(value, bits) + rest)
  {
    var all, high := BitsOfNat(value, bits) + rest, ShiftRight(value, bits - 5);
    BitsOfNatSplit(value, 5, bits - 5);
    assert all[..5] == BitsOfNat(high, 5);
    assert all[5..] == BitsOfNat(value, bits - 5) + rest;
    NatOfLowBits(high, 5);
    LetterOfLowBits(high, 5);
    GroupsToLettersUnfold(all);
  }

  lemma LettersOfOne(d: nat)
    ensures Letters([d]) == [LetterOf(d)]
  {
    assert [d][1..] == [];
  }

  lemma CompletedTail(value: nat, bits: nat)
    requires 0 < bits < 5
    ensures BitsOfNat(value, bits) + Zeros(5 - bits) == BitsOfNat(ShiftLeft(value, 5 - bits), 5)
  {
    BitsOfNatShifted(value, bits, 5 - bits);
  }

  lemma EmitLast(value: nat, bits: nat)
    requires 0 < bits < 5
    ensures GroupsToLetters(BitsOfNat(value, bits)) == [LetterOf(LowBits(ShiftLeft(value, 5 - bits), 32))]
  {
    var word, tail := ShiftLeft(value, 5 - bits), BitsOfNat(value, bits);
    CompletedTail(value, bits);
    NatOfLowBits(word, 5);
    DigitsOfShort(tail, 5);
    LettersOfOne(LowBits(word, 5));
    LetterOfLowBits(word, 5);
    LetterOfLowBits(word, 32);
  }

  // ---------------------------------------------------------------- what the encoding guarantees

  lemma LettersAreOrdered(i: nat)
    requires i < 32
    ensures LetterOf(i) == if i < 26 then ('a' as int + i) as char else ('2' as int + i - 26) as char
  {
    LowBitsOfSmall(i, 5);
    assert Pow2(5) == 32;
  }

  lemma {:induction false} LowBitsOfSmall(v: nat, n: nat)
    requires v < Pow2(n)
    ensures LowBits(v, n) == v
  {
    if n > 0 { LowBitsOfSmall(v / 2, n - 1); }
  }

  lemma Base32Length(bytes: seq<Byte>)
    ensures |Base32(bytes)| == (8 * |bytes| + 4) / 5
  {
    DigitsShape(BitsOfBytes(bytes), 5);
  }

  lemma FiveBitGroups(bits: Bits)
    ensures forall i | 0 <= i < |Digits(bits, 5)| :: Digits(bits, 5)[i] < 32
  {
    DigitsShape(bits, 5);
    assert Pow2(5) == 32;
    forall i | 0 <= i < |Digits(bits, 5)| ensures Digits(bits, 5)[i] < 32 {
      assert Digits(bits, 5)[i] in Digits(bits, 5);
    }
  }

  lemma LettersInjective(c: seq<nat>, d: seq<nat>)
    requires (forall i | 0 <= i < |c| :: c[i] < 32) && (forall i | 0 <= i < |d| :: d[i] < 32)
    requires Letters(c) == Letters(d)
    ensures c == d
  {
    assert |c| == |Letters(c)| == |Letters(d)| == |d|;
    forall i | 0 <= i < |c| ensures c[i] == d[i] {
      LettersAreOrdered(c[i]);
      LettersAreOrdered(d[i]);
      assert Letters(c)[i] == Letters(d)[i];
    }
  }

  /** No two byte strings, of whatever lengths, share an encoding. */
  lemma Base32Injective(a: seq<Byte>, b: seq<Byte>)
    requires Base32(a) == Base32(b)
    ensures a == b
  {
    var x, y := BitsOfBytes(a), BitsOfBytes(b);
    FiveBitGroups(x);
    FiveBitGroups(y);
    LettersInjective(Digits(x, 5), Digits(y, 5));
    SpreadOfDigits(x, 5);
    SpreadOfDigits(y, 5);
    BytesOfBitsOfBytes(a, Zeros(PadLength(|x|, 5)));
    BytesOfBitsOfBytes(b, Zeros(PadLength(|y|, 5)));
  }

  // ---------------------------------------------------------------- references

  predicate ReferenceCharacter(c: char) {
    'A' <= c <= 'Z' || 'a' <= c <= 'z' || '0' <= c <= '9' || c == '.' || c == '_' || c == '-'
  }

  /** The guard in front of every path: 1 to 200 safe characters and no "..". */
  predicate SafeReference(ref: string) {
    && 0 < |ref| <= 200
    && (forall c | c in ref :: ReferenceCharacter(c))
    && forall i | 0 <= i < |ref| - 1 :: !(ref[i] == '.' && ref[i + 1] == '.')
  }

  /** No separator, no step up, not empty and not longer than 200 characters. */
  lemma RefusedReferences(ref: string, i: nat)
    ensures SafeReference(ref) ==> 0 < |ref| <= 200 && '/' !in ref && '\\' !in ref && ' ' !in ref && '%' !in ref
    ensures i + 2 <= |ref| && ref[i..i + 2] == ".." ==> !SafeReference(ref)
  {
    if i + 2 <= |ref| && ref[i..i + 2] == ".." {
      assert ref[i] == ref[i..i + 2][0] && ref[i + 1] == ref[i..i + 2][1];
    }
  }

  function ToLower(c: char): char {
    if 'A' <= c <= 'Z' then (c as int + 32) as char else c
  }

  function LowerCase(s: string): (r: string)
    ensures |r| == |s| && forall i | 0 <= i < |r| :: r[i] == ToLower(s[i])
  {
    if s == [] then [] else [ToLower(s[0])] + LowerCase(s[1..])
  }

  /** The reference of an encrypted object, given its 32-byte keyed digest. */
  function ContentReference(digest: seq<Byte>): string
    requires |digest| == 32
  {
    REFERENCE_PREFIX + Base32(digest[..30])
  }

  lemma LettersAreSafe(bytes: seq<Byte>, i: nat)
    requires i < |Base32(bytes)|
    ensures var c := Base32(bytes)[i]; ReferenceCharacter(c) && c != '.' && ToLower(c) == c
  {
    FiveBitGroups(BitsOfBytes(bytes));
    LettersAreOrdered(Digits(BitsOfBytes(bytes), 5)[i]);
  }

  lemma SafeJoin(a: string, b: string)
    requires 0 < |a| + |b| <= 200
    requires forall i | 0 <= i < |a| :: ReferenceCharacter(a[i]) && a[i] != '.'
    requires forall i | 0 <= i < |b| :: ReferenceCharacter(b[i]) && b[i] != '.'
    ensures SafeReference(a + b)
  {
  }

  /** Every reference has 53 characters, passes the guard and is in lower case already. */
  lemma ContentReferencesAreSafe(digest: seq<Byte>)
    requires |digest| == 32
    ensures |ContentReference(digest)| == 53 && SafeReference(ContentReference(digest))
    ensures LowerCase(Base32(digest[..30])) == Base32(digest[..30])
  {
    var b32 := Base32(digest[..30]);
    Base32Length(digest[..30]);
    forall i | 0 <= i < |b32| ensures ReferenceCharacter(b32[i]) && b32[i] != '.' && ToLower(b32[i]) == b32[i] {
      LettersAreSafe(digest[..30], i);
    }
    SafeJoin(REFERENCE_PREFIX, b32);
  }

  method DeriveContentReference(digest: seq<Byte>) returns (reference: string)
    requires |digest| == 32
    ensures reference == ContentReference(digest)
    ensures |reference| == 53 && SafeReference(reference)
  {
    var b32 := Base32Encode(digest[..30]);
    ContentReferencesAreSafe(digest);
    reference := REFERENCE_PREFIX + LowerCase(b32);
  }

  /** Two digests share a reference exactly when their first thirty bytes agree. */
  lemma ReferencesAgreeExactly(d: seq<Byte>, e: seq<Byte>)
    requires |d| == 32 && |e| == 32
    ensures ContentReference(d) == ContentReference(e) <==> d[..30] == e[..30]
  {
    if ContentReference(d) == ContentReference(e) {
      assert ContentReference(d)[5..] == Base32(d[..30]);
      assert ContentReference(e)[5..] == Base32(e[..30]);
      Base32Injective(d[..30], e[..30]);
    }
  }
}
