/** Bit strings as integers, and their binary wire form (crates/ultrasql-core/src/bit_string.rs). */
module BitNumbers {
  import opened Wrappers
  import opened Text
  import opened BitBytes
  import opened BitStrings

  // ----- Integers -----

  function Pow2(n: nat): (p: nat)
    ensures p > 0
  {
    if n == 0 then 1 else 2 * Pow2(n - 1)
  }

  /** The number the bits denote, leftmost bit first. */
  function Unsigned(s: seq<bool>): nat {
    if s == [] then 0 else 2 * Unsigned(s[..|s| - 1]) + if s[|s| - 1] then 1 else 0
  }

  /** The number they denote in two's complement. */
  function Signed(s: seq<bool>): int {
    if s != [] && s[0] then Unsigned(s) - Pow2(|s|) else Unsigned(s)
  }

  /** Bit `k` of an integer, counted from the right. */
  predicate Digit(value: int, k: nat) {
    (value / Pow2(k)) % 2 == 1
  }

  /** The bits `from_i64` writes: the value shifted right, or its sign from bit 64 on. */
  predicate CopiedBit(value: i64, k: nat) {
    if k >= 64 then value < 0 else Digit(value, k)
  }

  function IntBits(width: nat, value: i64): (s: seq<bool>)
    ensures |s| == width
  {
    seq(width, i requires 0 <= i < width => CopiedBit(value, width - 1 - i))
  }

  method FromI64(width: u32, value: i64) returns (r: Option<BitString>)
    ensures r == Some(Pack(IntBits(width, value)))
  {
    ghost var bits := IntBits(width, value);
    var bytes := Zeros(ByteLen(width));
    for i := 0 to width
      invariant Holds(bytes[..], bits, i)
    {
      if CopiedBit(value, width - 1 - i) {
        var _ := SetRawBit(bytes, i, true);
      }
    }
    r := Build(bytes, bits, width);
  }

  lemma {:induction false} Pow2Grows(m: nat, n: nat)
    requires m <= n
    ensures Pow2(m) <= Pow2(n)
    decreases n
  {
    if m < n {
      Pow2Grows(m, n - 1);
    }
  }

  lemma Pow2At63()
    ensures Pow2(63) == 0x8000_0000_0000_0000
  {
    Pow2At16();
    var p: nat := 65536;
    Pow2Adds(16, 16);
    assert Pow2(32) == p * p;
    Pow2Adds(32, 16);
    Pow2Adds(48, 16);
    assert Pow2(64) == 2 * Pow2(63);
  }

  lemma Pow2At16()
    ensures Pow2(16) == 65536
  {
    assert Pow2(8) == 256;
    Pow2Adds(8, 8);
  }

  lemma {:induction false} Pow2Adds(m: nat, n: nat)
    ensures Pow2(m + n) == Pow2(m) * Pow2(n)
  {
    if n > 0 {
      Pow2Adds(m, n - 1);
      assert Pow2(m + n) == 2 * (Pow2(m) * Pow2(n - 1));
    }
  }

  /** A division by a number at least as large as the value gives the sign. */
  lemma LargeDivisor(value: int, p: nat)
    requires 0 < p && 0 - p <= value < p
    ensures value / p == if value < 0 then -1 else 0
  {
  }

  /** The sign bit stands for all the digits further left. */
  lemma CopiedBitIsDigit(value: i64, k: nat)
    ensures CopiedBit(value, k) == Digit(value, k)
  {
    if k >= 64 {
      Pow2At63();
      Pow2Grows(63, k);
      LargeDivisor(value, Pow2(k));
    }
  }

  lemma DivStep(value: int, p: nat)
    requires p > 0
    ensures value % (2 * p) == value % p + p * ((value / p) % 2)
  {
    var q, r := value / p, value % p;
    var h, b := q / 2, q % 2;
    assert value == (2 * p) * h + (p * b + r) by {
      assert value == p * (2 * h + b) + r;
    }
    assert 0 <= p * b + r < 2 * p;
    UniqueRemainder(value, 2 * p, h, p * b + r);
  }

  lemma UniqueRemainder(value: int, d: nat, q: int, r: nat)
    requires d > 0 && value == d * q + r && r < d
    ensures value % d == r
  {
    var q', r' := value / d, value % d;
    var e := q - q';
    assert d * q - d * q' == d * e;
    assert d * e == r' - r;
    if e >= 1 {
      Multiple(d, e);
    } else if e <= -1 {
      Multiple(d, -e);
    }
  }

  lemma Multiple(d: nat, k: nat)
    requires k >= 1
    ensures d * k >= d
  {
  }

  /** The lowest `width` digits, leftmost first. */
  function Digits(value: int, width: nat): (s: seq<bool>)
    ensures |s| == width
  {
    seq(width, i requires 0 <= i < width => Digit(value, width - 1 - i))
  }

  lemma {:induction false} UnsignedCons(b: bool, s: seq<bool>)
    ensures Unsigned([b] + s) == (if b then Pow2(|s|) else 0) + Unsigned(s)
  {
    if s != [] {
      assert ([b] + s)[..|s|] == [b] + s[..|s| - 1];
      UnsignedCons(b, s[..|s| - 1]);
    }
  }

  lemma {:induction false} UnsignedOfDigits(value: int, width: nat)
    ensures Unsigned(Digits(value, width)) == value % Pow2(width)
  {
    if width > 0 {
      UnsignedOfDigits(value, width - 1);
      assert Digits(value, width) == [Digit(value, width - 1)] + Digits(value, width - 1);
      UnsignedCons(Digit(value, width - 1), Digits(value, width - 1));
      DivStep(value, Pow2(width - 1));
    }
  }

  /** At any width the bits are the two's-complement digits of the value modulo 2 to the width. */
  lemma IntBitsAreDigits(width: nat, value: i64)
    ensures IntBits(width, value) == Digits(value, width)
    ensures Unsigned(IntBits(width, value)) == value % Pow2(width)
  {
    forall i | 0 <= i < width ensures IntBits(width, value)[i] == Digits(value, width)[i] {
      CopiedBitIsDigit(value, width - 1 - i);
    }
    UnsignedOfDigits(value, width);
  }

  /** Reading the bits back as signed gives the value exactly when the width has room for it. */
  lemma SignedReadsBackIff(width: nat, value: i64)
    requires width > 0
    ensures Signed(IntBits(width, value)) == value <==> 0 - Pow2(width - 1) <= value < Pow2(width - 1)
  {
    IntBitsAreDigits(width, value);
    var p := Pow2(width - 1);
    DivStep(value, p);
    var bits := IntBits(width, value);
    CopiedBitIsDigit(value, width - 1);
    assert bits[0] == Digit(value, width - 1);
    assert Signed(bits) == value % (2 * p) - if bits[0] then 2 * p else 0;
    SignedDigits(value, p);
  }

  lemma SignedDigits(value: int, p: nat)
    requires p > 0
    ensures value % p - p * ((value / p) % 2) == value <==> 0 - p <= value < p
  {
    var q := value / p;
    assert value == p * q + value % p;
    if 0 - p <= value < p {
      LargeDivisor(value, p);
    } else if value >= p {
      assert q >= 1;
      assert p * q >= p * 1;
    } else {
      assert q <= -2;
      assert p * q <= p * -2;
    }
  }

  /** From 64 bits on, always. */
  lemma SignedReadsBack(width: nat, value: i64)
    requires width >= 64
    ensures Signed(IntBits(width, value)) == value
  {
    Pow2At63();
    Pow2Grows(63, width - 1);
    SignedReadsBackIff(width, value);
  }

  // ----- The binary form -----

  const I32_MAX: nat := 0x7FFF_FFFF

  /** Big-endian bytes: the digits in order, leftmost first. */
  function ToBigEndian(n: i32): (b: seq<u8>)
    ensures |b| == 4
  {
    Pack(Digits(n, 32)).bytes
  }

  function FromBigEndian(b: seq<u8>): (n: i32)
    requires |b| == 4
  {
    SignedIsBounded(RawBits(b, 32));
    Pow2At31();
    Signed(RawBits(b, 32))
  }

  lemma Pow2At31()
    ensures Pow2(31) == 0x8000_0000
  {
    Pow2At16();
    Pow2Adds(16, 15);
    assert Pow2(16) == 2 * Pow2(15);
  }

  lemma {:induction false} UnsignedIsBounded(s: seq<bool>)
    ensures Unsigned(s) < Pow2(|s|)
  {
    if s != [] {
      UnsignedIsBounded(s[..|s| - 1]);
    }
  }

  lemma SignedIsBounded(s: seq<bool>)
    requires s != []
    ensures 0 - Pow2(|s| - 1) <= Signed(s) < Pow2(|s| - 1)
  {
    assert s == [s[0]] + s[1..];
    UnsignedCons(s[0], s[1..]);
    UnsignedIsBounded(s[1..]);
  }

  lemma SignedModulo(s: seq<bool>)
    ensures Signed(s) % Pow2(|s|) == Unsigned(s)
  {
    UnsignedIsBounded(s);
    UniqueRemainder(Signed(s), Pow2(|s|), if s != [] && s[0] then -1 else 0, Unsigned(s));
  }

  /** The digits of what the bits denote are the bits. */
  lemma DigitsOfSigned(s: seq<bool>)
    ensures Digits(Signed(s), |s|) == s
  {
    SignedModulo(s);
    UnsignedOfDigits(Signed(s), |s|);
    UnsignedIsInjective(Digits(Signed(s), |s|), s);
  }

  lemma BigEndianRoundTrip(n: i32)
    ensures FromBigEndian(ToBigEndian(n)) == n
  {
    BitsOfPack(Digits(n, 32));
    IntBitsAreDigits(32, n);
    Pow2At31();
    SignedReadsBackIff(32, n);
  }

  lemma BigEndianCanonical(b: seq<u8>)
    requires |b| == 4
    ensures ToBigEndian(FromBigEndian(b)) == b
  {
    DigitsOfSigned(RawBits(b, 32));
    PackOfBits(BitString(32, b));
  }

  lemma {:induction false} UnsignedIsInjective(s: seq<bool>, t: seq<bool>)
    requires |s| == |t| && Unsigned(s) == Unsigned(t)
    ensures s == t
  {
    if s != [] {
      UnsignedIsInjective(s[..|s| - 1], t[..|t| - 1]);
      assert s == s[..|s| - 1] + [s[|s| - 1]];
      assert t == t[..|t| - 1] + [t[|t| - 1]];
    }
  }

  /** The bit length, cut off at the largest `i32`, and the packed bytes. */
  function ToPgBinary(b: BitString): seq<u8> {
    ToBigEndian(if b.len <= I32_MAX then b.len else I32_MAX) + b.bytes
  }

  ghost function PgBinary(s: seq<u8>): Option<BitString> {
    if |s| < 4 then None
    else
      var len := FromBigEndian(s[..4]);
      if len < 0 || |s| - 4 != ByteLen(len) then None else Some(Pack(RawBits(s[4..], len)))
  }

  method FromPgBinary(s: seq<u8>) returns (r: Option<BitString>)
    ensures r == PgBinary(s)
  {
    if |s| < 4 {
      return None;
    }
    var len := FromBigEndian(s[..4]);
    if len < 0 {
      return None;
    }
    if |s| - 4 != ByteLen(len) {
      return None;
    }
    var bytes := new u8[|s| - 4](i requires 0 <= i < |s| - 4 => s[i + 4]);
    assert bytes[..] == s[4..];
    r := New(len, bytes);
  }

  /** The binary form reads back exactly up to 2^31 - 1 bits; one bit more loses the last bit, longer ones fail. */
  lemma PgBinaryRoundTripIff(b: BitString)
    requires b.Valid()
    ensures PgBinary(ToPgBinary(b)) == Some(b) <==> b.len <= I32_MAX
    ensures b.len == I32_MAX + 1 ==> PgBinary(ToPgBinary(b)) == Some(Pack(b.Bits()[..I32_MAX]))
    ensures b.len > I32_MAX + 1 ==> PgBinary(ToPgBinary(b)) == None
  {
    var len := if b.len <= I32_MAX then b.len else I32_MAX;
    var s := ToPgBinary(b);
    assert s[..4] == ToBigEndian(len) && s[4..] == b.bytes;
    BigEndianRoundTrip(len);
    if |b.bytes| == ByteLen(len) {
      assert RawBits(b.bytes, len) == b.Bits()[..len];
      if len == b.len {
        assert b.Bits()[..len] == b.Bits();
        PackOfBits(b);
      }
    }
  }

  /** What decodes is the encoding of the result, unless unused bits were set. */
  lemma PgBinaryCanonicalIff(s: seq<u8>)
    requires PgBinary(s).Some?
    ensures ToPgBinary(PgBinary(s).value) == s <==> Padded(s[4..], FromBigEndian(s[..4]))
  {
    var len := FromBigEndian(s[..4]);
    var b := PgBinary(s).value;
    BitsOfPack(RawBits(s[4..], len));
    BigEndianCanonical(s[..4]);
    assert s == s[..4] + s[4..];
    assert ToPgBinary(b)[4..] == b.bytes;
    if Padded(s[4..], len) {
      EqualIffSameBits(BitString(len, s[4..]), b);
    }
  }
}
