/** What packed bits weigh: bytes, bit strings and shifts as numbers (crates/ultrasql-core/src/bit_string.rs). */
module BitWeights {
  import opened Text
  import opened BitBytes
  import opened BitStrings
  import opened BitOperations
  import opened BitNumbers

  // ----- Bytes -----

  function One(bit: bool): nat {
    if bit then 1 else 0
  }

  /** Bit 0 is the most significant one. */
  lemma ByteWeighs(b: u8)
    ensures b as int ==
      128 * One(BitAt(b, 0)) + 64 * One(BitAt(b, 1)) + 32 * One(BitAt(b, 2)) + 16 * One(BitAt(b, 3))
      + 8 * One(BitAt(b, 4)) + 4 * One(BitAt(b, 5)) + 2 * One(BitAt(b, 6)) + One(BitAt(b, 7))
  {
  }

  lemma NextBit(s: seq<bool>, n: nat)
    requires n < |s|
    ensures Unsigned(s[..n + 1]) == 2 * Unsigned(s[..n]) + One(s[n])
  {
    assert s[..n + 1][..n] == s[..n];
  }

  lemma EightBits(s: seq<bool>)
    requires |s| == 8
    ensures Unsigned(s) == Eight(s)
  {
    NextBit(s, 0); NextBit(s, 1); NextBit(s, 2); NextBit(s, 3);
    NextBit(s, 4); NextBit(s, 5); NextBit(s, 6); NextBit(s, 7);
    assert s[..0] == [] && s[..8] == s;
  }

  lemma {:induction false} UnsignedAppend(a: seq<bool>, b: seq<bool>)
    ensures Unsigned(a + b) == Unsigned(a) * Pow2(|b|) + Unsigned(b)
  {
    if b == [] {
      assert a + b == a;
    } else {
      var front := b[..|b| - 1];
      UnsignedAppend(a, front);
      assert (a + b)[..|a + b| - 1] == a + front;
      Twice(Unsigned(a), Pow2(|front|));
    }
  }

  lemma Twice(x: nat, p: nat)
    ensures x * (2 * p) == 2 * (x * p)
  {
  }

  function Eight(s: seq<bool>): nat
    requires |s| == 8
  {
    128 * One(s[0]) + 64 * One(s[1]) + 32 * One(s[2]) + 16 * One(s[3]) + 8 * One(s[4]) + 4 * One(s[5]) + 2 * One(s[6])
    + One(s[7])
  }

  lemma ByteIsEight(b: u8, s: seq<bool>)
    requires |s| == 8 && forall k: nat :: k < 8 ==> s[k] == BitAt(b, k)
    ensures b as int == Eight(s)
  {
    ByteOfBits(b, s[0], s[1], s[2], s[3], s[4], s[5], s[6], s[7]);
  }

  lemma ByteOfBits(b: u8, b0: bool, b1: bool, b2: bool, b3: bool, b4: bool, b5: bool, b6: bool, b7: bool)
    requires b0 == BitAt(b, 0) && b1 == BitAt(b, 1) && b2 == BitAt(b, 2) && b3 == BitAt(b, 3)
    requires b4 == BitAt(b, 4) && b5 == BitAt(b, 5) && b6 == BitAt(b, 6) && b7 == BitAt(b, 7)
    ensures b as int ==
      128 * One(b0) + 64 * One(b1) + 32 * One(b2) + 16 * One(b3) + 8 * One(b4) + 4 * One(b5) + 2 * One(b6) + One(b7)
  {
    ByteWeighs(b);
  }

  /** A byte is the number its bits denote. */
  lemma ByteIsItsBits(b: u8, s: seq<bool>)
    requires |s| == 8 && forall k: nat :: k < 8 ==> s[k] == BitAt(b, k)
    ensures b as int == Unsigned(s)
  {
    ByteIsEight(b, s);
    EightBits(s);
  }

  /** Bits `8 * i` to `8 * i + 7`, zeros where there are none. */
  function Octet(bits: seq<bool>, i: nat): (s: seq<bool>)
    ensures |s| == 8
  {
    seq(8, k requires 0 <= k < 8 => 8 * i + k < |bits| && bits[8 * i + k])
  }

  /** Byte `i` of a packed bit string is the number its eight bits denote. */
  lemma PackedByteIs(bits: Bools, i: nat)
    requires i < ByteLen(|bits|)
    ensures Pack(bits).bytes[i] as int == Unsigned(Octet(bits, i))
  {
    var b := Pack(bits).bytes[i];
    forall k: nat | k < 8 ensures Octet(bits, i)[k] == BitAt(b, k) {
      PackByteAt(bits, 8 * i, 8, k);
    }
    ByteIsItsBits(b, Octet(bits, i));
  }

  // ----- Byte strings -----

  /** The number big-endian bytes denote. */
  function BigEndianValue(b: seq<u8>): nat {
    if b == [] then 0 else 256 * BigEndianValue(b[..|b| - 1]) + b[|b| - 1] as int
  }

  lemma LastBits(b: seq<u8>, low: seq<bool>)
    requires b != [] && |low| == 8 && forall k: nat :: k < 8 ==> low[k] == BitAt(b[|b| - 1], k)
    ensures RawBits(b, 8 * |b|) == RawBits(b[..|b| - 1], 8 * (|b| - 1)) + low
  {
  }

  lemma {:induction false} BytesWeighTheirBits(b: seq<u8>)
    ensures BigEndianValue(b) == Unsigned(RawBits(b, 8 * |b|))
  {
    if b != [] {
      var front, last := b[..|b| - 1], b[|b| - 1];
      BytesWeighTheirBits(front);
      var low := seq(8, k requires 0 <= k < 8 => BitAt(last, k));
      ByteIsItsBits(last, low);
      LastBits(b, low);
      UnsignedAppend(RawBits(front, 8 * |front|), low);
      assert Pow2(8) == 256;
    }
  }

  lemma NextByte(b: seq<u8>, n: nat)
    requires n < |b|
    ensures BigEndianValue(b[..n + 1]) == 256 * BigEndianValue(b[..n]) + b[n] as int
  {
    assert b[..n + 1][..n] == b[..n];
  }

  lemma FourBytes(b: seq<u8>)
    requires |b| == 4
    ensures BigEndianValue(b) == 0x100_0000 * b[0] as int + 0x1_0000 * b[1] as int + 0x100 * b[2] as int + b[3] as int
  {
    NextByte(b, 0); NextByte(b, 1); NextByte(b, 2); NextByte(b, 3);
    assert b[..0] == [] && b[..4] == b;
  }

  lemma Pow2At32()
    ensures Pow2(32) == 0x1_0000_0000
  {
    Pow2At31();
  }

  /** The four length bytes weigh 2^24, 2^16, 2^8 and 1. */
  lemma BigEndianWeighs(n: i32)
    ensures var b := ToBigEndian(n);
            0x100_0000 * b[0] as int + 0x1_0000 * b[1] as int + 0x100 * b[2] as int + b[3] as int == n % 0x1_0000_0000
  {
    var b := ToBigEndian(n);
    BitsOfPack(Digits(n, 32));
    BytesWeighTheirBits(b);
    UnsignedOfDigits(n, 32);
    Pow2At32();
    FourBytes(b);
  }

  // ----- Operations as arithmetic -----

  lemma {:induction false} FalsesWeighNothing(n: nat)
    ensures Unsigned(Falses(n)) == 0
  {
    if n > 0 {
      FalsesWeighNothing(n - 1);
      assert Falses(n)[..n - 1] == Falses(n - 1);
    }
  }

  lemma UniqueQuotient(value: nat, d: nat, q: nat, r: nat)
    requires d > 0 && value == q * d + r && r < d
    ensures value / d == q
  {
    UniqueRemainder(value, d, q, r);
    assert d * (value / d - q) == 0;
  }

  /** Shifting right by `n` divides by `2^n`. */
  lemma ShiftRightDivides(s: seq<bool>, n: nat)
    ensures Unsigned(ShiftRight(s, n)) == Unsigned(s) / Pow2(n)
  {
    if n >= |s| {
      UnsignedIsBounded(s);
      Pow2Grows(|s|, n);
      FalsesWeighNothing(|s|);
      LargeDivisor(Unsigned(s), Pow2(n));
    } else {
      var kept, lost := s[..|s| - n], s[|s| - n..];
      assert s == kept + lost;
      ShiftedOut(kept, lost);
      LeadingFalses(n, kept);
    }
  }

  lemma ShiftedOut(kept: seq<bool>, lost: seq<bool>)
    ensures Unsigned(kept + lost) / Pow2(|lost|) == Unsigned(kept)
  {
    UnsignedAppend(kept, lost);
    UnsignedIsBounded(lost);
    UniqueQuotient(Unsigned(kept + lost), Pow2(|lost|), Unsigned(kept), Unsigned(lost));
  }

  lemma LeadingFalses(n: nat, s: seq<bool>)
    ensures Unsigned(Falses(n) + s) == Unsigned(s)
  {
    UnsignedAppend(Falses(n), s);
    FalsesWeighNothing(n);
  }

  lemma TrailingFalses(s: seq<bool>, n: nat)
    ensures Unsigned(s + Falses(n)) == Unsigned(s) * Pow2(n)
  {
    UnsignedAppend(s, Falses(n));
    FalsesWeighNothing(n);
  }

  lemma ShiftedOutLeft(lost: seq<bool>, kept: seq<bool>)
    ensures Unsigned(kept + Falses(|lost|)) == (Unsigned(lost + kept) * Pow2(|lost|)) % Pow2(|lost + kept|)
  {
    UnsignedAppend(lost, kept);
    TrailingFalses(kept, |lost|);
    UnsignedIsBounded(kept + Falses(|lost|));
    Pow2Adds(|kept|, |lost|);
    Remaining(Unsigned(lost + kept), Unsigned(lost), Pow2(|kept|), Unsigned(kept), Pow2(|lost|), Pow2(|lost + kept|));
  }

  lemma AllShiftedOut(s: seq<bool>, n: nat)
    requires n >= |s|
    ensures (Unsigned(s) * Pow2(n)) % Pow2(|s|) == 0
  {
    Pow2Adds(|s|, n - |s|);
    MultipleOf(Unsigned(s), Pow2(|s|), Pow2(n - |s|));
  }

  /** Shifting left by `n` multiplies by `2^n`, modulo what the width can hold. */
  lemma ShiftLeftMultiplies(s: seq<bool>, n: nat)
    ensures Unsigned(ShiftLeft(s, n)) == (Unsigned(s) * Pow2(n)) % Pow2(|s|)
  {
    if n >= |s| {
      AllShiftedOut(s, n);
      FalsesWeighNothing(|s|);
    } else {
      assert s == s[..n] + s[n..];
      ShiftedOutLeft(s[..n], s[n..]);
    }
  }

  lemma Remaining(value: nat, lost: nat, p: nat, kept: nat, q: nat, d: nat)
    requires p > 0 && q > 0 && value == lost * p + kept && d == p * q && kept * q < d
    ensures (value * q) % d == kept * q
  {
    assert d > 0;
    assert lost * p * q == d * lost;
    assert value * q == lost * p * q + kept * q;
    UniqueRemainder(value * q, d, lost, kept * q);
  }

  lemma MultipleOf(a: nat, d: nat, k: nat)
    requires d > 0
    ensures (a * (d * k)) % d == 0
  {
    var value := a * (d * k);
    assert value == d * (a * k);
    UniqueRemainder(value, d, a * k, 0);
  }

  /** Complementing subtracts from all ones. */
  lemma {:induction false} NotSubtracts(s: seq<bool>)
    ensures Unsigned(Not(s)) == Pow2(|s|) - 1 - Unsigned(s)
  {
    if s != [] {
      NotSubtracts(s[..|s| - 1]);
      assert Not(s)[..|s| - 1] == Not(s[..|s| - 1]);
    }
  }

  /** Resizing cuts or pads at the right. */
  lemma ResizeKeepsTheLeft(s: seq<bool>, n: nat)
    ensures if n <= |s| then Resize(s, n) == s[..n]
            else s < Resize(s, n) && forall i :: |s| <= i < n ==> !Resize(s, n)[i]
  {
  }

  // ----- Text -----

  /** The number a text of binary digits denotes. */
  function BinaryValue(t: string): int {
    if t == "" then 0 else 2 * BinaryValue(t[..|t| - 1]) + (t[|t| - 1] as int - '0' as int)
  }

  /** The text of a bit string is the binary numeral of its number. */
  lemma {:induction false} TextIsBinaryNumeral(s: seq<bool>)
    ensures BinaryValue(BitText(s)) == Unsigned(s)
  {
    if s != [] {
      TextIsBinaryNumeral(s[..|s| - 1]);
      assert BitText(s)[..|s| - 1] == BitText(s[..|s| - 1]);
    }
  }

  /** And reading the text of `0`s and `1`s takes the same number. */
  lemma {:induction false} TextReadsAsNumeral(t: string)
    requires IsBitText(t)
    ensures Unsigned(TextBits(t)) == BinaryValue(t)
  {
    if t != "" {
      TextReadsAsNumeral(t[..|t| - 1]);
      assert TextBits(t)[..|t| - 1] == TextBits(t[..|t| - 1]);
    }
  }
}
