// Byte strings as bit streams cut into fixed-width groups: the common shape of base32 and base64
// (sections 4 to 6 of RFC 4648), without padding characters.
module BitStreams {

  type Byte = b: nat | b < 256
  type Bits = seq<bool>

  function Pow2(n: nat): (r: nat)
    ensures r > 0
  {
    if n == 0 then 1 else 2 * Pow2(n - 1)
  }

  /** The low n bits of v, most significant first. */
  function BitsOfNat(v: nat, n: nat): (r: Bits)
    ensures |r| == n
  {
    if n == 0 then [] else BitsOfNat(v / 2, n - 1) + [v % 2 == 1]
  }

  function NatOfBits(bits: Bits): nat {
    if bits == [] then 0 else 2 * NatOfBits(bits[..|bits| - 1]) + (if bits[|bits| - 1] then 1 else 0)
  }

  function Zeros(n: nat): (r: Bits)
    ensures |r| == n && forall i | 0 <= i < n :: !r[i]
  {
    if n == 0 then [] else Zeros(n - 1) + [false]
  }

  function BitsOfBytes(bytes: seq<Byte>): (r: Bits)
    ensures |r| == 8 * |bytes|
  {
    if bytes == [] then [] else BitsOfNat(bytes[0], 8) + BitsOfBytes(bytes[1..])
  }

  /** The whole bytes at the front of a bit stream. */
  function BytesOfBits(bits: Bits): (r: seq<Byte>)
    ensures |r| == |bits| / 8
  {
    if |bits| < 8 then []
    else
      NatOfBitsBound(bits[..8]);
      [NatOfBits(bits[..8])] + BytesOfBits(bits[8..])
  }

  /** Groups of w bits, the last one completed on the right with zero bits. */
  function Digits(bits: Bits, w: nat): (r: seq<nat>)
    requires w > 0
  {
    if bits == [] then []
    else if |bits| < w then [NatOfBits(bits + Zeros(w - |bits|))]
    else [NatOfBits(bits[..w])] + Digits(bits[w..], w)
  }

  /** The bits of a sequence of w-bit digits. */
  function Spread(digits: seq<nat>, w: nat): Bits {
    if digits == [] then [] else BitsOfNat(digits[0], w) + Spread(digits[1..], w)
  }

  lemma {:induction false} SpreadLength(digits: seq<nat>, w: nat)
    ensures |Spread(digits, w)| == w * |digits|
  {
    if digits != [] {
      SpreadLength(digits[1..], w);
      assert w * |digits| == w + w * |digits[1..]|;
    }
  }

  function PadLength(n: nat, w: nat): (r: nat)
    requires w > 0
    ensures r < w
  {
    if n == 0 then 0 else if n < w then w - n else PadLength(n - w, w)
  }

  // ---------------------------------------------------------------- inverses

  lemma {:induction false} NatOfBitsBound(bits: Bits)
    ensures NatOfBits(bits) < Pow2(|bits|)
    ensures |bits| == 8 ==> NatOfBits(bits) < 256
  {
    if bits != [] { NatOfBitsBound(bits[..|bits| - 1]); }
    if |bits| == 8 { assert Pow2(8) == 256; }
  }

  lemma {:induction false} NatOfBitsOfNat(v: nat, n: nat)
    requires v < Pow2(n)
    ensures NatOfBits(BitsOfNat(v, n)) == v
  {
    if n > 0 {
      NatOfBitsOfNat(v / 2, n - 1);
      assert BitsOfNat(v, n)[..n - 1] == BitsOfNat(v / 2, n - 1);
    }
  }

  lemma {:induction false} BitsOfNatOfBits(bits: Bits)
    ensures BitsOfNat(NatOfBits(bits), |bits|) == bits
  {
    if bits != [] {
      var front := bits[..|bits| - 1];
      BitsOfNatOfBits(front);
      assert NatOfBits(bits) / 2 == NatOfBits(front);
      assert bits == front + [bits[|bits| - 1]];
    }
  }

  lemma {:induction false} BytesOfBitsOfBytes(bytes: seq<Byte>, rest: Bits)
    requires |rest| < 8
    ensures BytesOfBits(BitsOfBytes(bytes) + rest) == bytes
  {
    if bytes == [] {
      assert [] + rest == rest;
    } else {
      var bits := BitsOfBytes(bytes) + rest;
      assert bits[..8] == BitsOfNat(bytes[0], 8);
      assert bits[8..] == BitsOfBytes(bytes[1..]) + rest;
      assert Pow2(8) == 256;
      NatOfBitsOfNat(bytes[0], 8);
      BytesOfBitsOfBytes(bytes[1..], rest);
    }
  }

  lemma {:induction false} BitsOfBytesOfBits(bits: Bits)
    ensures var k := 8 * (|bits| / 8);
            BitsOfBytes(BytesOfBits(bits)) == bits[..k]
    decreases |bits|
  {
    if |bits| >= 8 {
      BitsOfBytesOfBits(bits[8..]);
      BitsOfNatOfBits(bits[..8]);
      var k := 8 * (|bits| / 8);
      assert bits[..k] == bits[..8] + bits[8..][..k - 8];
    }
  }

  lemma SpreadCons(d: nat, rest: seq<nat>, w: nat)
    ensures Spread([d] + rest, w) == BitsOfNat(d, w) + Spread(rest, w)
  {
    assert ([d] + rest)[1..] == rest;
  }

  lemma DigitsUnfold(bits: Bits, w: nat)
    requires w > 0 && |bits| >= w
    ensures Digits(bits, w) == [NatOfBits(bits[..w])] + Digits(bits[w..], w)
  {
    if |bits| == w { assert bits[w..] == []; }
  }

  lemma SpreadOne(d: nat, w: nat)
    ensures Spread([d], w) == BitsOfNat(d, w)
  {
    assert [d][1..] == [];
    assert BitsOfNat(d, w) + [] == BitsOfNat(d, w);
  }

  lemma PadOfShort(n: nat, w: nat)
    requires 0 < n < w
    ensures PadLength(n, w) == w - n
  {
  }

  lemma DigitsOfShort(bits: Bits, w: nat)
    requires 0 < |bits| < w
    ensures Digits(bits, w) == [NatOfBits(bits + Zeros(w - |bits|))]
    ensures Spread(Digits(bits, w), w) == bits + Zeros(w - |bits|)
  {
    BitsOfNatOfBits(bits + Zeros(w - |bits|));
    SpreadOne(NatOfBits(bits + Zeros(w - |bits|)), w);
  }

  /** Cutting into groups loses nothing: spreading the groups gives the bits back, completed with zeros. */
  lemma {:induction false} SpreadOfDigits(bits: Bits, w: nat)
    requires w > 0
    ensures Spread(Digits(bits, w), w) == bits + Zeros(PadLength(|bits|, w))
    decreases |bits|
  {
    if bits == [] {
    } else if |bits| < w {
      DigitsOfShort(bits, w);
      PadOfShort(|bits|, w);
    } else {
      var front, back := bits[..w], bits[w..];
      SpreadOfDigits(back, w);
      DigitsUnfold(bits, w);
      SpreadCons(NatOfBits(front), Digits(back, w), w);
      BitsOfNatOfBits(front);
      Reassociate(bits, w, Zeros(PadLength(|back|, w)));
    }
  }

  lemma Reassociate(bits: Bits, w: nat, pad: Bits)
    requires w <= |bits|
    ensures bits[..w] + (bits[w..] + pad) == bits + pad
  {
  }

  lemma {:induction false} DigitsShape(bits: Bits, w: nat)
    requires w > 0
    ensures forall d | d in Digits(bits, w) :: d < Pow2(w)
    ensures w * |Digits(bits, w)| == |bits| + PadLength(|bits|, w)
    decreases |bits|
  {
    SpreadOfDigits(bits, w);
    SpreadLength(Digits(bits, w), w);
    if bits == [] {
    } else if |bits| < w {
      NatOfBitsBound(bits + Zeros(w - |bits|));
    } else {
      NatOfBitsBound(bits[..w]);
      DigitsShape(bits[w..], w);
    }
  }

  lemma SpreadFront(digits: seq<nat>, w: nat)
    requires digits != []
    ensures |Spread(digits, w)| >= w
    ensures Spread(digits, w)[..w] == BitsOfNat(digits[0], w) && Spread(digits, w)[w..] == Spread(digits[1..], w)
  {
  }

  lemma {:induction false} SpreadInjective(a: seq<nat>, b: seq<nat>, w: nat)
    requires w > 0 && Spread(a, w) == Spread(b, w)
    requires (forall d | d in a :: d < Pow2(w)) && (forall d | d in b :: d < Pow2(w))
    ensures a == b
  {
    if a != [] && b != [] {
      SpreadFront(a, w);
      SpreadFront(b, w);
      assert a[0] in a && b[0] in b;
      assert (forall d | d in a[1..] :: d in a) && (forall d | d in b[1..] :: d in b);
      NatOfBitsOfNat(a[0], w);
      NatOfBitsOfNat(b[0], w);
      SpreadInjective(a[1..], b[1..], w);
      assert a == [a[0]] + a[1..] && b == [b[0]] + b[1..];
    }
  }

  lemma {:induction false} MultipleGrows(w: nat, a: nat, b: nat)
    requires a < b
    ensures w * a + w <= w * b
  {
    assert w * b == w * (b - 1) + w;
    if a < b - 1 { MultipleGrows(w, a, b - 1); }
  }

  lemma SameMultiple(w: nat, n: nat, p: nat, q: nat, m: nat, k: nat)
    requires p < w && q < w && w * m == n + p && w * k == n + q
    ensures p == q
  {
    if m < k { MultipleGrows(w, m, k); }
    if k < m { MultipleGrows(w, k, m); }
  }

  /** The groups of a bit stream are the only digits that spread to it, completed with less than a group of zeros. */
  lemma DigitsOfSpread(digits: seq<nat>, bits: Bits, pad: nat, w: nat)
    requires w > pad
    requires forall d | d in digits :: d < Pow2(w)
    requires Spread(digits, w) == bits + Zeros(pad)
    ensures Digits(bits, w) == digits
  {
    SpreadLength(digits, w);
    SpreadOfDigits(bits, w);
    DigitsShape(bits, w);
    SameMultiple(w, |bits|, pad, PadLength(|bits|, w), |digits|, |Digits(bits, w)|);
    SpreadInjective(digits, Digits(bits, w), w);
  }

  // ---------------------------------------------------------------- words

  /** v >>> k. */
  function ShiftRight(v: nat, k: nat): nat {
    if k == 0 then v else ShiftRight(v / 2, k - 1)
  }

  /** v << k, before any wrap-around. */
  function ShiftLeft(v: nat, k: nat): nat {
    if k == 0 then v else 2 * ShiftLeft(v, k - 1)
  }

  /** The low n bits of v as a number: v & (2^n - 1), and the wrap-around of an n-bit word. */
  function LowBits(v: nat, n: nat): (r: nat)
    ensures r < Pow2(n)
  {
    if n == 0 then 0 else 2 * LowBits(v / 2, n - 1) + v % 2
  }

  lemma {:induction false} NatOfLowBits(v: nat, n: nat)
    ensures NatOfBits(BitsOfNat(v, n)) == LowBits(v, n)
  {
    if n > 0 { NatOfLowBits(v / 2, n - 1); }
  }

  /** High bits of a word come before its low bits. */
  lemma {:induction false} BitsOfNatSplit(v: nat, n: nat, m: nat)
    ensures BitsOfNat(v, n + m) == BitsOfNat(ShiftRight(v, m), n) + BitsOfNat(v, m)
  {
    if m > 0 { BitsOfNatSplit(v / 2, n, m - 1); }
  }

  /** The low n bits survive any wrap-around at k >= n bits. */
  lemma {:induction false} BitsOfNatTruncated(v: nat, n: nat, k: nat)
    requires n <= k
    ensures BitsOfNat(LowBits(v, k), n) == BitsOfNat(v, n)
  {
    if n > 0 { BitsOfNatTruncated(v / 2, n - 1, k - 1); }
  }

  lemma {:induction false} BitsOfNatShifted(v: nat, n: nat, k: nat)
    ensures BitsOfNat(ShiftLeft(v, k), n + k) == BitsOfNat(v, n) + Zeros(k)
  {
    if k > 0 { BitsOfNatShifted(v, n, k - 1); }
  }

  /** Shifting left by k and filling in k low bits appends them. */
  lemma {:induction false} BitsOfNatFilled(v: nat, n: nat, low: nat, k: nat)
    requires low < Pow2(k)
    ensures BitsOfNat(ShiftLeft(v, k) + low, n + k) == BitsOfNat(v, n) + BitsOfNat(low, k)
  {
    if k > 0 {
      BitsOfNatFilled(v, n, low / 2, k - 1);
      assert (ShiftLeft(v, k) + low) / 2 == ShiftLeft(v, k - 1) + low / 2;
    }
  }
}
